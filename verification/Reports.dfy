/** The counts of the incremental report, and when they add up to the number of chunks. */
module Reports {
  import opened Index
  import opened Freshness
  import opened History
  import opened Samples

  lemma {:induction false} CountsSplit(chunks: seq<Chunk>, docs: set<string>, n: nat)
    requires n <= |chunks|
    ensures CountOf(chunks, docs, true, n) + CountOf(chunks, docs, false, n) == n
  {
    if n > 0 {
      CountsSplit(chunks, docs, n - 1);
    }
  }

  lemma {:induction false} CountLatestAppend(chunks: seq<Chunk>, more: seq<Chunk>, docs: set<string>, n: nat)
    requires n <= |more|
    ensures CountLatestOf(chunks + more, docs, |chunks| + n) == CountLatestOf(chunks, docs, |chunks|) + CountLatestOf(more, docs, n)
  {
    if n == 0 {
      CountLatestPrefix(chunks, more, docs, |chunks|);
    } else {
      CountLatestAppend(chunks, more, docs, n - 1);
    }
  }

  lemma {:induction false} CountLatestPrefix(chunks: seq<Chunk>, more: seq<Chunk>, docs: set<string>, n: nat)
    requires n <= |chunks|
    ensures CountLatestOf(chunks + more, docs, n) == CountLatestOf(chunks, docs, n)
  {
    if n > 0 {
      CountLatestPrefix(chunks, more, docs, n - 1);
    }
  }

  lemma {:induction false} NoneCounted(chunks: seq<Chunk>, docs: set<string>, n: nat)
    requires n <= |chunks| && RetiredIn(chunks, docs)
    ensures CountLatestOf(chunks, docs, n) == 0
  {
    if n > 0 {
      NoneCounted(chunks, docs, n - 1);
    }
  }

  lemma {:induction false} AllCounted(chunks: seq<Chunk>, docs: set<string>, n: nat)
    requires n <= |chunks| && forall i :: 0 <= i < n ==> chunks[i].docId in docs && chunks[i].isLatest
    ensures CountLatestOf(chunks, docs, n) == n
  {
    if n > 0 {
      AllCounted(chunks, docs, n - 1);
    }
  }

  /** No chunk of the documents is latest. */
  ghost predicate RetiredIn(chunks: seq<Chunk>, docs: set<string>) {
    forall i :: 0 <= i < |chunks| && chunks[i].docId in docs ==> !chunks[i].isLatest
  }

  lemma {:induction false} KeptRetired(chunks: seq<Chunk>, paths: set<string>, changed: set<string>, n: nat)
    requires n <= |chunks|
    ensures RetiredIn(KeptChunks(chunks, paths, changed, n), changed)
  {
    if n > 0 {
      KeptRetired(chunks, paths, changed, n - 1);
      var before, after := KeptChunks(chunks, paths, changed, n - 1), KeptChunks(chunks, paths, changed, n);
      forall i | 0 <= i < |after| && after[i].docId in changed ensures !after[i].isLatest {
        if i < |before| {
          assert after[i] == before[i];
        }
      }
    }
  }

  lemma AddFileCounts(cfg: Settings, before: Lists, f: File, version: nat, docs: set<string>)
    ensures var more := |cfg.split(f.text)|; var after := AddFile(cfg, before, f, version);
            && |after.chunks| == |before.chunks| + more
            && CountLatestOf(after.chunks, docs, |after.chunks|)
               == CountLatestOf(before.chunks, docs, |before.chunks|) + (if f.path in docs then more else 0)
  {
    var first := |before.chunks| + 1;
    var more := DocChunks(cfg, f, first, version);
    forall i | 0 <= i < |more| ensures more[i].docId == f.path && more[i].isLatest {
      DocChunkAt(cfg, f, first, version, i);
    }
    CountLatestAppend(before.chunks, more, docs, |more|);
    if f.path in docs {
      AllCounted(more, docs, |more|);
    } else {
      assert RetiredIn(more, docs);
      NoneCounted(more, docs, |more|);
    }
  }

  /** How many passages the first `n` files are split into. */
  function PassageCount(cfg: Settings, files: seq<File>, n: nat): nat
    requires n <= |files|
  {
    if n == 0 then 0 else PassageCount(cfg, files, n - 1) + |cfg.split(files[n - 1].text)|
  }

  lemma {:induction false} AddFilesCounts(cfg: Settings, base: Lists, files: seq<File>, latest: map<string, Latest>,
                                          docs: set<string>, inside: bool, n: nat)
    requires n <= |files| && forall i :: 0 <= i < n ==> (files[i].path in docs) == inside
    ensures var after, more := AddFiles(cfg, base, files, latest, n), PassageCount(cfg, files, n);
            && |after.chunks| == |base.chunks| + more
            && CountLatestOf(after.chunks, docs, |after.chunks|)
               == CountLatestOf(base.chunks, docs, |base.chunks|) + (if inside then more else 0)
  {
    if n > 0 {
      AddFilesCounts(cfg, base, files, latest, docs, inside, n - 1);
      AddFileCounts(cfg, AddFiles(cfg, base, files, latest, n - 1), files[n - 1], NextVersion(latest, files[n - 1].path), docs);
    }
  }

  ghost predicate Outside(files: seq<File>, paths: set<string>) {
    forall i :: 0 <= i < |files| ==> files[i].path !in paths
  }

  lemma {:induction false} OthersAreOutside(corpus: seq<File>, paths: set<string>, n: nat)
    requires n <= |corpus|
    ensures Outside(Others(corpus, paths, n), paths)
  {
    if n > 0 {
      OthersAreOutside(corpus, paths, n - 1);
      var before, after := Others(corpus, paths, n - 1), Others(corpus, paths, n);
      forall i | 0 <= i < |after| ensures after[i].path !in paths {
        if i < |before| {
          assert after[i] == before[i];
        }
      }
    }
  }

  lemma VersionedCounts(cfg: Settings, previous: IndexData, corpus: seq<File>, forced: set<string>)
    ensures var lists, changed, kept := Versioned(cfg, previous, corpus, forced), ChangedPaths(previous, corpus, forced),
                                        Carried(previous, corpus, forced).chunks;
            |lists.chunks| == |kept| + CountLatestOf(lists.chunks, changed, |lists.chunks|)
  {
    var files, changed := ChangedFiles(previous, corpus, forced), ChangedPaths(previous, corpus, forced);
    var base := Carried(previous, corpus, forced);
    forall i | 0 <= i < |files| ensures files[i].path in changed {
      PathsHave(files, |files|, files[i].path);
    }
    KeptRetired(previous.chunks, Paths(corpus, |corpus|), changed, |previous.chunks|);
    NoneCounted(base.chunks, changed, |base.chunks|);
    AddFilesCounts(cfg, base, files, PreviousLatest(previous), changed, true, |files|);
  }

  /** Whatever the previous index, every chunk is reused, invalidated or re-embedded, except the
      passages of the documents added because the previous index listed none. */
  lemma ReportAddsUp(cfg: Settings, previous: IndexData, corpus: seq<File>, forced: set<string>)
    ensures var report := ReportOf(cfg, previous, corpus, forced);
            var others := Others(corpus, ChangedPaths(previous, corpus, forced), |corpus|);
            |Incremental(cfg, previous, corpus, forced).chunks|
            == report.reused + report.invalidatedCount + report.reembedded
               + if previous.docs == [] then PassageCount(cfg, others, |others|) else 0
  {
    var changed := ChangedPaths(previous, corpus, forced);
    var lists, kept := Versioned(cfg, previous, corpus, forced), Carried(previous, corpus, forced).chunks;
    var others := Others(corpus, changed, |corpus|);
    VersionedCounts(cfg, previous, corpus, forced);
    CountsSplit(kept, changed, |kept|);
    OthersAreOutside(corpus, changed, |corpus|);
    AddFilesCounts(cfg, lists, others, map[], changed, false, |others|);
  }

  /** The counts of the report cover every chunk. */
  predicate AddsUp(cfg: Settings, previous: IndexData, corpus: seq<File>, forced: set<string>) {
    var report := ReportOf(cfg, previous, corpus, forced);
    |Incremental(cfg, previous, corpus, forced).chunks| == report.reused + report.invalidatedCount + report.reembedded
  }

  /** The counts add up exactly when the previous index lists a document, or the documents it
      names with their present text have no passages. */
  lemma AddsUpIff(cfg: Settings, previous: IndexData, corpus: seq<File>, forced: set<string>)
    ensures var others := Others(corpus, ChangedPaths(previous, corpus, forced), |corpus|);
            AddsUp(cfg, previous, corpus, forced) <==> previous.docs != [] || PassageCount(cfg, others, |others|) == 0
  {
    ReportAddsUp(cfg, previous, corpus, forced);
  }

  /** They add up after every step from a reachable index, also when it lists no document. */
  lemma ReachableAddsUp(cfg: Settings, was: seq<File>, previous: IndexData, corpus: seq<File>, forced: set<string>)
    requires IsIndexOf(cfg, was, previous) && DistinctPaths(corpus)
    ensures AddsUp(cfg, previous, corpus, forced)
  {
    AddsUpIff(cfg, previous, corpus, forced);
    if previous.docs == [] {
      NothingElse(cfg, was, previous, corpus, forced);
    }
  }

  lemma NamedIsUnchanged(previous: IndexData, f: File)
    requires previous.docsById != map[] && f.path in previous.docsById && previous.docsById[f.path].hash == Sha(f.text)
    ensures Others([f], ChangedPaths(previous, [f], {}), 1) == [f]
  {
    assert Changed([f], previous.docsById, {}, 0) == [];
    assert ChangedFiles(previous, [f], {}) == [];
    assert Others([f], {}, 0) == [];
  }

  lemma NamedIsMissed(cfg: Settings, previous: IndexData, f: File)
    requires previous.docs == [] && |cfg.split(f.text)| > 0
    requires previous.docsById != map[] && f.path in previous.docsById && previous.docsById[f.path].hash == Sha(f.text)
    ensures !AddsUp(cfg, previous, [f], {})
  {
    NamedIsUnchanged(previous, f);
    AddsUpIff(cfg, previous, [f], {});
    assert PassageCount(cfg, [f], 1) == PassageCount(cfg, [f], 0) + |cfg.split([f][0].text)|;
  }

  /** An index without documents that still names one with its present text: nothing counts as
      changed, and the passage that the fallback adds is in no count. */
  lemma NamedWithoutDocs(chunkSize: int, overlap: int, lateChunking: bool, contextualPrefix: bool)
    ensures var cfg, f := StructureAwareSettings(chunkSize, overlap, lateChunking, contextualPrefix), File("a", ShortText());
            !AddsUp(cfg, IndexData([], [], map["a" := Latest(1, Sha(f.text), {1})]), [f], {})
  {
    var cfg, f := StructureAwareSettings(chunkSize, overlap, lateChunking, contextualPrefix), File("a", ShortText());
    var named := map["a" := Latest(1, Sha(f.text), {1})];
    OnePair(chunkSize, overlap);
    assert "a" in named;
    NamedIsMissed(cfg, IndexData([], [], named), f);
  }

  // ----- what the report says, read off the two indexes -----

  ghost predicate IsCurrent(corpus: seq<File>, p: string) {
    exists k :: 0 <= k < |corpus| && corpus[k].path == p
  }

  /** Document `p` is forced, or new, or its text has another hash than its latest version had. */
  ghost predicate IsEdited(corpus: seq<File>, latest: map<string, Latest>, forced: set<string>, p: string) {
    exists k :: 0 <= k < |corpus| && corpus[k].path == p
                && (p in forced || p !in latest || latest[p].hash != Sha(corpus[k].text))
  }

  /** What the previous index knows as latest: its own grouping, or one made from its records. */
  ghost predicate KnownAs(previous: IndexData, latest: map<string, Latest>) {
    latest == if previous.docsById == map[] then DocsById(previous.docs, |previous.docs|) else previous.docsById
  }

  lemma CurrentIs(corpus: seq<File>, p: string)
    ensures p in Paths(corpus, |corpus|) <==> IsCurrent(corpus, p)
  {
    PathsHave(corpus, |corpus|, p);
  }

  lemma EditedIs(previous: IndexData, latest: map<string, Latest>, corpus: seq<File>, forced: set<string>, p: string)
    requires KnownAs(previous, latest)
    ensures p in ChangedPaths(previous, corpus, forced) <==> IsEdited(corpus, latest, forced, p)
  {
    var files := ChangedFiles(previous, corpus, forced);
    PathsHave(files, |files|, p);
    if p in ChangedPaths(previous, corpus, forced) {
      var i :| 0 <= i < |files| && files[i].path == p;
      var k := ChangedAt(corpus, latest, forced, |corpus|, i);
    }
    if k :| 0 <= k < |corpus| && corpus[k].path == p && IsChanged(corpus[k], latest, forced) {
      var i := ChangedHas(corpus, latest, forced, |corpus|, k);
    }
  }

  lemma {:induction false} ChangedAt(corpus: seq<File>, latest: map<string, Latest>, forced: set<string>, n: nat, i: nat) returns (k: nat)
    requires n <= |corpus| && i < |Changed(corpus, latest, forced, n)|
    ensures k < n && Changed(corpus, latest, forced, n)[i] == corpus[k] && IsChanged(corpus[k], latest, forced)
  {
    if i < |Changed(corpus, latest, forced, n - 1)| {
      k := ChangedAt(corpus, latest, forced, n - 1, i);
    } else {
      k := n - 1;
    }
  }

  lemma {:induction false} ChangedHas(corpus: seq<File>, latest: map<string, Latest>, forced: set<string>, n: nat, k: nat) returns (i: nat)
    requires k < n <= |corpus| && IsChanged(corpus[k], latest, forced)
    ensures i < |Changed(corpus, latest, forced, n)| && Changed(corpus, latest, forced, n)[i] == corpus[k]
  {
    if k == n - 1 {
      i := |Changed(corpus, latest, forced, n)| - 1;
    } else {
      i := ChangedHas(corpus, latest, forced, n - 1, k);
    }
  }

  // ----- counting -----

  lemma {:induction false} CountPrefix(chunks: seq<Chunk>, c: Chunk, docs: set<string>, wanted: bool, n: nat)
    requires n <= |chunks|
    ensures CountOf(chunks + [c], docs, wanted, n) == CountOf(chunks, docs, wanted, n)
  {
    if n > 0 {
      CountPrefix(chunks, c, docs, wanted, n - 1);
    }
  }

  /** The places among the first `n` chunks of kept documents that changed, or did not. */
  ghost function Places(chunks: seq<Chunk>, paths: set<string>, changed: set<string>, wanted: bool, n: nat): set<nat>
    requires n <= |chunks|
  {
    set i: nat | i < n && chunks[i].docId in paths && (chunks[i].docId in changed) == wanted
  }

  lemma OneMorePlace(before: set<nat>, after: set<nat>, k: nat, has: bool)
    requires k !in before && forall i: nat :: i in after <==> i in before || (has && i == k)
    ensures |after| == |before| + if has then 1 else 0
  {
    assert after == if has then before + {k} else before;
  }

  lemma PlacesGrow(chunks: seq<Chunk>, paths: set<string>, changed: set<string>, wanted: bool, n: nat)
    requires 0 < n <= |chunks|
    ensures |Places(chunks, paths, changed, wanted, n)| == |Places(chunks, paths, changed, wanted, n - 1)|
            + if chunks[n - 1].docId in paths && (chunks[n - 1].docId in changed) == wanted then 1 else 0
  {
    OneMorePlace(Places(chunks, paths, changed, wanted, n - 1), Places(chunks, paths, changed, wanted, n), n - 1,
                 chunks[n - 1].docId in paths && (chunks[n - 1].docId in changed) == wanted);
  }

  lemma {:induction false} CountKept(chunks: seq<Chunk>, paths: set<string>, changed: set<string>, wanted: bool, n: nat)
    requires n <= |chunks|
    ensures var kept := KeptChunks(chunks, paths, changed, n);
            CountOf(kept, changed, wanted, |kept|) == |Places(chunks, paths, changed, wanted, n)|
  {
    if n == 0 {
      assert Places(chunks, paths, changed, wanted, 0) == {};
    } else {
      var before, c := KeptChunks(chunks, paths, changed, n - 1), chunks[n - 1];
      CountKept(chunks, paths, changed, wanted, n - 1);
      PlacesGrow(chunks, paths, changed, wanted, n);
      CountPrefix(before, if c.docId in changed then c.(isLatest := false) else c, changed, wanted, |before|);
    }
  }

  /** `reused` counts the chunks of the previous index whose document stays as it is, and
      `invalidatedCount` those whose document stays but is edited or forced. */
  lemma CountsAreOfChunks(cfg: Settings, previous: IndexData, latest: map<string, Latest>, corpus: seq<File>, forced: set<string>)
    requires KnownAs(previous, latest)
    ensures var report, chunks := ReportOf(cfg, previous, corpus, forced), previous.chunks;
            && report.reused
               == |set i: nat | i < |chunks| && IsCurrent(corpus, chunks[i].docId) && !IsEdited(corpus, latest, forced, chunks[i].docId)|
            && report.invalidatedCount == |set i: nat | i < |chunks| && IsEdited(corpus, latest, forced, chunks[i].docId)|
  {
    var chunks, paths, changed := previous.chunks, Paths(corpus, |corpus|), ChangedPaths(previous, corpus, forced);
    CountKept(chunks, paths, changed, false, |chunks|);
    CountKept(chunks, paths, changed, true, |chunks|);
    PlacesAre(previous, latest, corpus, forced);
  }

  lemma PlacesAre(previous: IndexData, latest: map<string, Latest>, corpus: seq<File>, forced: set<string>)
    requires KnownAs(previous, latest)
    ensures var chunks, paths, changed := previous.chunks, Paths(corpus, |corpus|), ChangedPaths(previous, corpus, forced);
            && Places(chunks, paths, changed, false, |chunks|)
               == (set i: nat | i < |chunks| && IsCurrent(corpus, chunks[i].docId) && !IsEdited(corpus, latest, forced, chunks[i].docId))
            && Places(chunks, paths, changed, true, |chunks|)
               == (set i: nat | i < |chunks| && IsEdited(corpus, latest, forced, chunks[i].docId))
  {
    forall p ensures p in Paths(corpus, |corpus|) <==> IsCurrent(corpus, p) {
      CurrentIs(corpus, p);
    }
    forall p ensures p in ChangedPaths(previous, corpus, forced) <==> IsEdited(corpus, latest, forced, p) {
      EditedIs(previous, latest, corpus, forced, p);
    }
  }

  // ----- re-embedded chunks -----

  lemma {:induction false} CountLatestIs(chunks: seq<Chunk>, docs: set<string>, n: nat)
    requires n <= |chunks|
    ensures CountLatestOf(chunks, docs, n) == |set i: nat | i < n && chunks[i].docId in docs && chunks[i].isLatest|
  {
    var after := set i: nat | i < n && chunks[i].docId in docs && chunks[i].isLatest;
    if n == 0 {
      assert after == {};
    } else {
      var before := set i: nat | i < n - 1 && chunks[i].docId in docs && chunks[i].isLatest;
      CountLatestIs(chunks, docs, n - 1);
      assert after == if chunks[n - 1].docId in docs && chunks[n - 1].isLatest then before + {n - 1} else before;
    }
  }

  /** `reembedded` counts the latest chunks of edited documents in the new index. */
  lemma ReembeddedAreLatest(cfg: Settings, previous: IndexData, latest: map<string, Latest>, corpus: seq<File>, forced: set<string>)
    requires KnownAs(previous, latest)
    ensures var chunks := Incremental(cfg, previous, corpus, forced).chunks;
            ReportOf(cfg, previous, corpus, forced).reembedded
            == |set i: nat | i < |chunks| && IsEdited(corpus, latest, forced, chunks[i].docId) && chunks[i].isLatest|
  {
    var chunks, changed := Incremental(cfg, previous, corpus, forced).chunks, ChangedPaths(previous, corpus, forced);
    CountLatestIs(chunks, changed, |chunks|);
    forall p ensures p in changed <==> IsEdited(corpus, latest, forced, p) {
      EditedIs(previous, latest, corpus, forced, p);
    }
    assert (set i: nat | i < |chunks| && chunks[i].docId in changed && chunks[i].isLatest)
        == (set i: nat | i < |chunks| && IsEdited(corpus, latest, forced, chunks[i].docId) && chunks[i].isLatest);
  }

  // ----- the listed documents and hashes -----

  ghost predicate AreIncreasing(at: seq<nat>, n: nat) {
    (forall i :: 0 <= i < |at| ==> at[i] < n) && forall i, j :: 0 <= i < j < |at| ==> at[i] < at[j]
  }

  ghost predicate ListsAt(paths: seq<string>, corpus: seq<File>, at: seq<nat>) {
    |paths| == |at| && forall i :: 0 <= i < |at| ==> at[i] < |corpus| && paths[i] == corpus[at[i]].path
  }

  ghost predicate FilesAt(files: seq<File>, corpus: seq<File>, at: seq<nat>) {
    |files| == |at| && forall i :: 0 <= i < |at| ==> at[i] < |corpus| && files[i] == corpus[at[i]]
  }

  ghost predicate AreChangedAt(corpus: seq<File>, latest: map<string, Latest>, forced: set<string>, n: nat, at: seq<nat>)
    requires n <= |corpus|
  {
    forall k: nat :: k in at <==> k < n && IsChanged(corpus[k], latest, forced)
  }

  lemma OneMoreChanged(corpus: seq<File>, latest: map<string, Latest>, forced: set<string>, n: nat, files: seq<File>, before: seq<nat>,
                       at: seq<nat>)
    requires n < |corpus| && AreIncreasing(before, n) && FilesAt(files, corpus, before) && AreChangedAt(corpus, latest, forced, n, before)
    requires IsChanged(corpus[n], latest, forced) && at == before + [n]
    ensures AreIncreasing(at, n + 1) && FilesAt(files + [corpus[n]], corpus, at) && AreChangedAt(corpus, latest, forced, n + 1, at)
  {
    forall k: nat ensures k in at <==> k in before || k == n {
      assert at[|before|] == n;
    }
  }

  lemma {:induction false} ChangedPlaces(corpus: seq<File>, latest: map<string, Latest>, forced: set<string>, n: nat) returns (at: seq<nat>)
    requires n <= |corpus|
    ensures AreIncreasing(at, n) && FilesAt(Changed(corpus, latest, forced, n), corpus, at) && AreChangedAt(corpus, latest, forced, n, at)
  {
    if n == 0 {
      at := [];
    } else {
      var before := ChangedPlaces(corpus, latest, forced, n - 1);
      at := before;
      if IsChanged(corpus[n - 1], latest, forced) {
        at := before + [n - 1];
        OneMoreChanged(corpus, latest, forced, n - 1, Changed(corpus, latest, forced, n - 1), before, at);
      }
    }
  }

  lemma {:induction false} PathListAt(files: seq<File>, n: nat)
    requires n <= |files|
    ensures |PathList(files, n)| == n && forall i :: 0 <= i < n ==> PathList(files, n)[i] == files[i].path
  {
    if n > 0 {
      PathListAt(files, n - 1);
    }
  }

  /** `changed` lists the new, edited and forced documents of the corpus, in its order. */
  lemma ChangedAreEdited(cfg: Settings, previous: IndexData, latest: map<string, Latest>, corpus: seq<File>, forced: set<string>)
    returns (at: seq<nat>)
    requires KnownAs(previous, latest)
    ensures AreIncreasing(at, |corpus|) && ListsAt(ReportOf(cfg, previous, corpus, forced).changed, corpus, at)
    ensures forall k: nat :: k in at <==>
              k < |corpus| && (corpus[k].path in forced || corpus[k].path !in latest
                               || latest[corpus[k].path].hash != Sha(corpus[k].text))
  {
    at := ChangedPlaces(corpus, latest, forced, |corpus|);
    var files := ChangedFiles(previous, corpus, forced);
    PathListAt(files, |files|);
  }

  lemma {:induction false} InvalidatedPrefix(chunks: seq<Chunk>, c: Chunk, changed: set<string>, n: nat)
    requires n <= |chunks|
    ensures InvalidatedHashes(chunks + [c], changed, n) == InvalidatedHashes(chunks, changed, n)
  {
    if n > 0 {
      InvalidatedPrefix(chunks, c, changed, n - 1);
    }
  }

  /** The hashes that the first `n` chunks of document `p` carry. */
  ghost function HashesOf(chunks: seq<Chunk>, p: string, n: nat): set<Digest>
    requires n <= |chunks|
  {
    set i: nat | i < n && chunks[i].docId == p :: chunks[i].docHash
  }

  lemma HashesGrow(chunks: seq<Chunk>, p: string, n: nat)
    requires 0 < n <= |chunks|
    ensures HashesOf(chunks, p, n) == HashesOf(chunks, p, n - 1) + if chunks[n - 1].docId == p then {chunks[n - 1].docHash} else {}
  {
    var before, after := HashesOf(chunks, p, n - 1), HashesOf(chunks, p, n);
    forall h ensures h in after <==> h in before + (if chunks[n - 1].docId == p then {chunks[n - 1].docHash} else {}) {
    }
  }

  ghost predicate Invalidates(r: map<string, set<Digest>>, p: string, staysChanged: bool, hashes: set<Digest>) {
    && (p in r <==> staysChanged && hashes != {})
    && (p in r ==> r[p] == hashes)
  }

  lemma {:induction false} InvalidatedIs(chunks: seq<Chunk>, paths: set<string>, changed: set<string>, p: string, n: nat)
    requires n <= |chunks|
    ensures var kept := KeptChunks(chunks, paths, changed, n);
            Invalidates(InvalidatedHashes(kept, changed, |kept|), p, p in paths && p in changed, HashesOf(chunks, p, n))
  {
    if n == 0 {
      assert HashesOf(chunks, p, 0) == {};
    } else {
      var before, c := KeptChunks(chunks, paths, changed, n - 1), chunks[n - 1];
      InvalidatedIs(chunks, paths, changed, p, n - 1);
      HashesGrow(chunks, p, n);
      InvalidatedPrefix(before, if c.docId in changed then c.(isLatest := false) else c, changed, |before|);
    }
  }

  /** `invalidated` has the edited documents with chunks, each with all hashes its chunks had. */
  lemma InvalidatedAreOldHashes(cfg: Settings, previous: IndexData, latest: map<string, Latest>, corpus: seq<File>, forced: set<string>,
                                p: string)
    requires KnownAs(previous, latest)
    ensures var r, chunks := ReportOf(cfg, previous, corpus, forced).invalidated, previous.chunks;
            && (p in r <==> IsEdited(corpus, latest, forced, p) && exists i :: 0 <= i < |chunks| && chunks[i].docId == p)
            && (p in r ==> r[p] == set i: nat | i < |chunks| && chunks[i].docId == p :: chunks[i].docHash)
  {
    var chunks := previous.chunks;
    CurrentIs(corpus, p);
    EditedIs(previous, latest, corpus, forced, p);
    InvalidatedIs(chunks, Paths(corpus, |corpus|), ChangedPaths(previous, corpus, forced), p, |chunks|);
    HashesExist(chunks, p);
  }

  lemma HashesExist(chunks: seq<Chunk>, p: string)
    ensures HashesOf(chunks, p, |chunks|) != {} <==> exists i :: 0 <= i < |chunks| && chunks[i].docId == p
  {
    if i :| 0 <= i < |chunks| && chunks[i].docId == p {
      assert chunks[i].docHash in HashesOf(chunks, p, |chunks|);
    }
  }
}
