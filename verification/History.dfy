/** What every history of incremental builds keeps: per document, a list of retired versions
    followed by the current one; and the agreement of retrieval with a full rebuild. */
module History {
  import opened Pairs
  import opened Index
  import opened Freshness

  /** The records of one document among the first `n`, in order. */
  function DocsOf(docs: seq<Doc>, p: string, n: nat): seq<Doc>
    requires n <= |docs|
  {
    if n == 0 then []
    else if docs[n - 1].docId == p then DocsOf(docs, p, n - 1) + [docs[n - 1]]
    else DocsOf(docs, p, n - 1)
  }

  function ChunksOf(chunks: seq<Chunk>, p: string, n: nat): seq<Chunk>
    requires n <= |chunks|
  {
    if n == 0 then []
    else if chunks[n - 1].docId == p then ChunksOf(chunks, p, n - 1) + [chunks[n - 1]]
    else ChunksOf(chunks, p, n - 1)
  }

  function AllDocsOf(data: Lists, p: string): seq<Doc> {
    DocsOf(data.docs, p, |data.docs|)
  }

  function AllChunksOf(data: Lists, p: string): seq<Chunk> {
    ChunksOf(data.chunks, p, |data.chunks|)
  }

  function RetireDocs(docs: seq<Doc>, n: nat): (retired: seq<Doc>)
    requires n <= |docs|
    ensures |retired| == n
  {
    if n == 0 then [] else RetireDocs(docs, n - 1) + [docs[n - 1].(isLatest := false)]
  }

  function RetireChunks(chunks: seq<Chunk>, n: nat): (retired: seq<Chunk>)
    requires n <= |chunks|
    ensures |retired| == n
  {
    if n == 0 then [] else RetireChunks(chunks, n - 1) + [chunks[n - 1].(isLatest := false)]
  }

  lemma {:induction false} RetireDocAt(docs: seq<Doc>, n: nat, i: nat)
    requires i < n <= |docs|
    ensures RetireDocs(docs, n)[i] == docs[i].(isLatest := false)
  {
    if i < n - 1 {
      RetireDocAt(docs, n - 1, i);
    }
  }

  lemma {:induction false} RetireChunkAt(chunks: seq<Chunk>, n: nat, i: nat)
    requires i < n <= |chunks|
    ensures RetireChunks(chunks, n)[i] == chunks[i].(isLatest := false)
  {
    if i < n - 1 {
      RetireChunkAt(chunks, n - 1, i);
    }
  }

  // ----- paths -----

  lemma {:induction false} PathsHave(files: seq<File>, n: nat, p: string)
    requires n <= |files|
    ensures p in Paths(files, n) <==> exists i :: 0 <= i < n && files[i].path == p
  {
    if n > 0 {
      PathsHave(files, n - 1, p);
    }
  }

  lemma {:induction false} DistinctAt(files: seq<File>, n: nat, i: nat, j: nat)
    requires i < j < n <= |files| && DistinctTo(files, n)
    ensures files[i].path != files[j].path
  {
    if j == n - 1 {
      PathsHave(files, n - 1, files[j].path);
    } else {
      DistinctAt(files, n - 1, i, j);
    }
  }

  lemma {:induction false} DistinctPrefix(files: seq<File>, m: nat, n: nat)
    requires m <= n <= |files| && DistinctTo(files, n)
    ensures DistinctTo(files, m)
  {
    if m < n {
      DistinctPrefix(files, m, n - 1);
    }
  }

  // ----- one document through one step -----

  lemma {:induction false} DocsOfSnoc(docs: seq<Doc>, d: Doc, p: string, n: nat)
    requires n <= |docs|
    ensures DocsOf(docs + [d], p, n) == DocsOf(docs, p, n)
  {
    if n > 0 {
      DocsOfSnoc(docs, d, p, n - 1);
    }
  }

  lemma {:induction false} ChunksOfPrefix(chunks: seq<Chunk>, more: seq<Chunk>, p: string, n: nat)
    requires n <= |chunks|
    ensures ChunksOf(chunks + more, p, n) == ChunksOf(chunks, p, n)
  {
    if n > 0 {
      ChunksOfPrefix(chunks, more, p, n - 1);
    }
  }

  lemma {:induction false} ChunksOfAppend(chunks: seq<Chunk>, more: seq<Chunk>, p: string, q: string, n: nat)
    requires n <= |more| && forall i :: 0 <= i < |more| ==> more[i].docId == q
    ensures ChunksOf(chunks + more, p, |chunks| + n) == ChunksOf(chunks, p, |chunks|) + (if p == q then more[..n] else [])
  {
    if n == 0 {
      ChunksOfPrefix(chunks, more, p, |chunks|);
    } else {
      ChunksOfAppend(chunks, more, p, q, n - 1);
      assert more[..n] == more[..n - 1] + [more[n - 1]];
    }
  }

  lemma {:induction false} RetireDocsSnoc(docs: seq<Doc>, d: Doc, n: nat)
    requires n <= |docs|
    ensures RetireDocs(docs + [d], n) == RetireDocs(docs, n)
  {
    if n > 0 {
      RetireDocsSnoc(docs, d, n - 1);
    }
  }

  lemma {:induction false} RetireChunksSnoc(chunks: seq<Chunk>, c: Chunk, n: nat)
    requires n <= |chunks|
    ensures RetireChunks(chunks + [c], n) == RetireChunks(chunks, n)
  {
    if n > 0 {
      RetireChunksSnoc(chunks, c, n - 1);
    }
  }

  /** What of a document's records is carried over: none, all retired, or all as they are. */
  predicate DocsCarried(kept: seq<Doc>, docs: seq<Doc>, paths: set<string>, changed: set<string>, p: string) {
    kept == if p !in paths then [] else if p in changed then RetireDocs(docs, |docs|) else docs
  }

  predicate ChunksCarried(kept: seq<Chunk>, chunks: seq<Chunk>, paths: set<string>, changed: set<string>, p: string) {
    kept == if p !in paths then [] else if p in changed then RetireChunks(chunks, |chunks|) else chunks
  }

  lemma DocCarried(kept: seq<Doc>, docs: seq<Doc>, paths: set<string>, changed: set<string>, d: Doc)
    requires DocsCarried(kept, docs, paths, changed, d.docId) && d.docId in paths
    ensures DocsCarried(kept + [if d.docId in changed then d.(isLatest := false) else d], docs + [d], paths, changed, d.docId)
  {
    RetireDocsSnoc(docs, d, |docs|);
  }

  lemma ChunkCarried(kept: seq<Chunk>, chunks: seq<Chunk>, paths: set<string>, changed: set<string>, c: Chunk)
    requires ChunksCarried(kept, chunks, paths, changed, c.docId) && c.docId in paths
    ensures ChunksCarried(kept + [if c.docId in changed then c.(isLatest := false) else c], chunks + [c], paths, changed, c.docId)
  {
    RetireChunksSnoc(chunks, c, |chunks|);
  }

  lemma {:induction false} KeptDocsOf(docs: seq<Doc>, paths: set<string>, changed: set<string>, p: string, n: nat)
    requires n <= |docs|
    ensures var kept := KeptDocs(docs, paths, changed, n);
            DocsCarried(DocsOf(kept, p, |kept|), DocsOf(docs, p, n), paths, changed, p)
  {
    if n > 0 {
      KeptDocsOf(docs, paths, changed, p, n - 1);
      var before, d := KeptDocs(docs, paths, changed, n - 1), docs[n - 1];
      if d.docId in paths {
        DocsOfSnoc(before, if d.docId in changed then d.(isLatest := false) else d, p, |before|);
        if d.docId == p {
          DocCarried(DocsOf(before, p, |before|), DocsOf(docs, p, n - 1), paths, changed, d);
        }
      }
    }
  }

  lemma {:induction false} KeptChunksOf(chunks: seq<Chunk>, paths: set<string>, changed: set<string>, p: string, n: nat)
    requires n <= |chunks|
    ensures var kept := KeptChunks(chunks, paths, changed, n);
            ChunksCarried(ChunksOf(kept, p, |kept|), ChunksOf(chunks, p, n), paths, changed, p)
  {
    if n > 0 {
      KeptChunksOf(chunks, paths, changed, p, n - 1);
      var before, c := KeptChunks(chunks, paths, changed, n - 1), chunks[n - 1];
      if c.docId in paths {
        ChunksOfPrefix(before, [if c.docId in changed then c.(isLatest := false) else c], p, |before|);
        if c.docId == p {
          ChunkCarried(ChunksOf(before, p, |before|), ChunksOf(chunks, p, n - 1), paths, changed, c);
        }
      }
    }
  }

  lemma {:induction false} MadeFor(cfg: Settings, f: File, pairs: seq<Pair>, first: nat, version: nat, n: nat, i: nat)
    requires i < n <= |pairs|
    ensures MakeChunks(cfg, f, pairs, first, version, n)[i] == MakeChunk(cfg, f, pairs[i], first + i, version)
  {
    if i < n - 1 {
      MadeFor(cfg, f, pairs, first, version, n - 1, i);
    }
  }

  lemma DocChunkAt(cfg: Settings, f: File, first: nat, version: nat, i: nat)
    requires i < |DocChunks(cfg, f, first, version)|
    ensures DocChunks(cfg, f, first, version)[i] == MakeChunk(cfg, f, cfg.split(f.text)[i], first + i, version)
  {
    MadeFor(cfg, f, cfg.split(f.text), first, version, |cfg.split(f.text)|, i);
  }

  lemma AddFileOf(cfg: Settings, before: Lists, f: File, version: nat, p: string)
    ensures var after := AddFile(cfg, before, f, version);
            && AllDocsOf(after, p) == AllDocsOf(before, p) + (if p == f.path then [DocRecord(cfg, f, version)] else [])
            && AllChunksOf(after, p) == AllChunksOf(before, p)
                                        + (if p == f.path then DocChunks(cfg, f, |before.chunks| + 1, version) else [])
  {
    var more := DocChunks(cfg, f, |before.chunks| + 1, version);
    forall i | 0 <= i < |more| ensures more[i].docId == f.path {
      DocChunkAt(cfg, f, |before.chunks| + 1, version, i);
    }
    ChunksOfAppend(before.chunks, more, p, f.path, |more|);
    assert more[..|more|] == more;
    DocsOfSnoc(before.docs, DocRecord(cfg, f, version), p, |before.docs|);
  }

  /** A document that is not among the added files keeps its records. */
  lemma {:induction false} AddOthers(cfg: Settings, base: Lists, files: seq<File>, latest: map<string, Latest>, n: nat, p: string)
    requires n <= |files| && forall i :: 0 <= i < n ==> files[i].path != p
    ensures var after := AddFiles(cfg, base, files, latest, n);
            AllDocsOf(after, p) == AllDocsOf(base, p) && AllChunksOf(after, p) == AllChunksOf(base, p)
  {
    if n > 0 {
      AddOthers(cfg, base, files, latest, n - 1, p);
      AddFileOf(cfg, AddFiles(cfg, base, files, latest, n - 1), files[n - 1], NextVersion(latest, files[n - 1].path), p);
    }
  }

  /** A document among the added files gains one record and the chunks of one version. */
  /** `after` has the record and the chunks of one more version of `f` than `base`. */
  ghost predicate Gains(cfg: Settings, base: Lists, after: Lists, f: File, first: nat, version: nat) {
    && AllDocsOf(after, f.path) == AllDocsOf(base, f.path) + [DocRecord(cfg, f, version)]
    && AllChunksOf(after, f.path) == AllChunksOf(base, f.path) + DocChunks(cfg, f, first, version)
  }

  /** The last of `n` files gets its version behind what was there of it. */
  lemma AddLast(cfg: Settings, base: Lists, files: seq<File>, latest: map<string, Latest>, n: nat) returns (first: nat)
    requires 0 < n <= |files| && DistinctTo(files, n)
    ensures Gains(cfg, base, AddFiles(cfg, base, files, latest, n), files[n - 1], first, NextVersion(latest, files[n - 1].path))
  {
    var f, before := files[n - 1], AddFiles(cfg, base, files, latest, n - 1);
    forall i | 0 <= i < n - 1 ensures files[i].path != f.path {
      DistinctAt(files, n, i, n - 1);
    }
    AddOthers(cfg, base, files, latest, n - 1, f.path);
    AddFileOf(cfg, before, f, NextVersion(latest, f.path), f.path);
    first := |before.chunks| + 1;
  }

  lemma {:induction false} AddThis(cfg: Settings, base: Lists, files: seq<File>, latest: map<string, Latest>, n: nat, k: nat)
    returns (first: nat)
    requires k < n <= |files| && DistinctTo(files, n)
    ensures Gains(cfg, base, AddFiles(cfg, base, files, latest, n), files[k], first, NextVersion(latest, files[k].path))
  {
    if k == n - 1 {
      first := AddLast(cfg, base, files, latest, n);
    } else {
      var before := AddFiles(cfg, base, files, latest, n - 1);
      DistinctAt(files, n, k, n - 1);
      AddFileOf(cfg, before, files[n - 1], NextVersion(latest, files[n - 1].path), files[k].path);
      first := AddThis(cfg, base, files, latest, n - 1, k);
    }
  }

  // ----- which files change -----

  lemma {:induction false} PathsOfPrefix(files: seq<File>, f: File, n: nat)
    requires n <= |files|
    ensures Paths(files + [f], n) == Paths(files, n) && DistinctTo(files + [f], n) == DistinctTo(files, n)
  {
    if n > 0 {
      PathsOfPrefix(files, f, n - 1);
    }
  }

  lemma {:induction false} ChangedFrom(corpus: seq<File>, latest: map<string, Latest>, forced: set<string>, n: nat)
    requires n <= |corpus| && DistinctTo(corpus, n)
    ensures var files := Changed(corpus, latest, forced, n);
            && DistinctPaths(files)
            && (forall p :: p in Paths(files, |files|) ==> p in Paths(corpus, n))
            && (forall k :: 0 <= k < n ==>
                  (corpus[k] in files <==> IsChanged(corpus[k], latest, forced))
                  && (corpus[k].path in Paths(files, |files|) <==> IsChanged(corpus[k], latest, forced)))
  {
    if n > 0 {
      ChangedFrom(corpus, latest, forced, n - 1);
      var before, f := Changed(corpus, latest, forced, n - 1), corpus[n - 1];
      PathsOfPrefix(before, f, |before|);
      PathsHave(before, |before|, f.path);
      forall k | 0 <= k < n - 1 ensures corpus[k].path != f.path {
        DistinctAt(corpus, n, k, n - 1);
      }
    }
  }

  /** A file of the corpus is among the changed files, with its path in the changed set, exactly
      when it is new, edited or forced. */
  lemma FileChanges(previous: IndexData, corpus: seq<File>, forced: set<string>, k: nat)
    requires k < |corpus| && DistinctPaths(corpus)
    ensures DistinctPaths(ChangedFiles(previous, corpus, forced))
    ensures corpus[k].path in ChangedPaths(previous, corpus, forced) <==> IsChanged(corpus[k], PreviousLatest(previous), forced)
    ensures IsChanged(corpus[k], PreviousLatest(previous), forced) <==> corpus[k] in ChangedFiles(previous, corpus, forced)
  {
    ChangedFrom(corpus, PreviousLatest(previous), forced, |corpus|);
  }

  // ----- the records of one document -----

  /** The chunks of retired versions: none is latest, all are older than `v`. */
  ghost predicate Retired(chunks: seq<Chunk>, v: nat) {
    forall i :: 0 <= i < |chunks| ==> !chunks[i].isLatest && chunks[i].version < v
  }

  ghost predicate DistinctKeys(chunks: seq<Chunk>) {
    forall i, j :: 0 <= i < j < |chunks| ==> chunks[i].version != chunks[j].version || chunks[i].ordinal != chunks[j].ordinal
  }

  ghost predicate TrueIds(chunks: seq<Chunk>) {
    forall i :: 0 <= i < |chunks| ==>
      chunks[i].id == ChunkId(chunks[i].docId, chunks[i].docHash, chunks[i].version, chunks[i].ordinal, chunks[i].text)
  }

  /** The last record is the file's, latest, and the greatest version; every other is retired. */
  ghost predicate DocHistory(cfg: Settings, f: File, docs: seq<Doc>) {
    && docs != []
    && docs[|docs| - 1] == DocRecord(cfg, f, docs[|docs| - 1].version)
    && docs[|docs| - 1].version > 0
    && forall i :: 0 <= i < |docs| - 1 ==> !docs[i].isLatest && docs[i].version < docs[|docs| - 1].version
  }

  /** Retired chunks, then the chunks of the file's current version. */
  ghost predicate ChunkHistory(cfg: Settings, f: File, version: nat, chunks: seq<Chunk>) {
    && DistinctKeys(chunks) && TrueIds(chunks)
    && exists retired, first :: Retired(retired, version) && chunks == retired + DocChunks(cfg, f, first, version)
  }

  ghost predicate IsHistory(cfg: Settings, f: File, docs: seq<Doc>, chunks: seq<Chunk>) {
    DocHistory(cfg, f, docs) && ChunkHistory(cfg, f, docs[|docs| - 1].version, chunks)
  }

  lemma ChunksOlder(cfg: Settings, f: File, version: nat, chunks: seq<Chunk>, i: nat)
    requires ChunkHistory(cfg, f, version, chunks) && i < |chunks|
    ensures chunks[i].version <= version
  {
    var retired, first :| Retired(retired, version) && chunks == retired + DocChunks(cfg, f, first, version);
    if i >= |retired| {
      DocChunkAt(cfg, f, first, version, i - |retired|);
    }
  }

  lemma NewKeys(cfg: Settings, f: File, first: nat, version: nat)
    ensures DistinctKeys(DocChunks(cfg, f, first, version)) && TrueIds(DocChunks(cfg, f, first, version))
  {
    var more := DocChunks(cfg, f, first, version);
    forall i | 0 <= i < |more|
      ensures more[i].ordinal == first + i && more[i].version == version
      ensures more[i].id == ChunkId(more[i].docId, more[i].docHash, more[i].version, more[i].ordinal, more[i].text)
    {
      DocChunkAt(cfg, f, first, version, i);
    }
  }

  lemma RetiredFacts(was: seq<Chunk>, version: nat)
    requires DistinctKeys(was) && TrueIds(was) && forall i :: 0 <= i < |was| ==> was[i].version < version
    ensures var retired := RetireChunks(was, |was|);
            Retired(retired, version) && DistinctKeys(retired) && TrueIds(retired)
  {
    forall i | 0 <= i < |was| ensures RetireChunks(was, |was|)[i] == was[i].(isLatest := false) {
      RetireChunkAt(was, |was|, i);
    }
  }

  lemma AppendVersion(cfg: Settings, f: File, retired: seq<Chunk>, first: nat, version: nat)
    requires Retired(retired, version) && DistinctKeys(retired) && TrueIds(retired)
    ensures ChunkHistory(cfg, f, version, retired + DocChunks(cfg, f, first, version))
  {
    var more := DocChunks(cfg, f, first, version);
    var chunks := retired + more;
    NewKeys(cfg, f, first, version);
    forall i | 0 <= i < |more| ensures more[i].version == version {
      DocChunkAt(cfg, f, first, version, i);
    }
    assert forall i :: 0 <= i < |chunks| ==> chunks[i] == if i < |retired| then retired[i] else more[i - |retired|];
  }

  lemma NextChunkHistory(cfg: Settings, before: File, f: File, version: nat, chunks: seq<Chunk>, first: nat)
    requires ChunkHistory(cfg, before, version, chunks)
    ensures ChunkHistory(cfg, f, version + 1, RetireChunks(chunks, |chunks|) + DocChunks(cfg, f, first, version + 1))
  {
    forall i | 0 <= i < |chunks| ensures chunks[i].version < version + 1 {
      ChunksOlder(cfg, before, version, chunks, i);
    }
    RetiredFacts(chunks, version + 1);
    AppendVersion(cfg, f, RetireChunks(chunks, |chunks|), first, version + 1);
  }

  lemma NextDocHistory(cfg: Settings, before: File, f: File, docs: seq<Doc>)
    requires DocHistory(cfg, before, docs)
    ensures DocHistory(cfg, f, RetireDocs(docs, |docs|) + [DocRecord(cfg, f, docs[|docs| - 1].version + 1)])
  {
    var v, retired := docs[|docs| - 1].version + 1, RetireDocs(docs, |docs|);
    var after := retired + [DocRecord(cfg, f, v)];
    forall i | 0 <= i < |after| - 1 ensures !after[i].isLatest && after[i].version < v {
      RetireDocAt(docs, |docs|, i);
      assert after[i] == retired[i];
    }
    assert after[|after| - 1] == DocRecord(cfg, f, v);
    assert DocRecord(cfg, f, v).version == v;
  }

  /** A changed document that was indexed before: its history is retired and gains a version. */
  lemma NextHistory(cfg: Settings, before: File, f: File, docs: seq<Doc>, chunks: seq<Chunk>, first: nat)
    requires IsHistory(cfg, before, docs, chunks)
    ensures var v := docs[|docs| - 1].version + 1;
            IsHistory(cfg, f, RetireDocs(docs, |docs|) + [DocRecord(cfg, f, v)],
                      RetireChunks(chunks, |chunks|) + DocChunks(cfg, f, first, v))
  {
    var v := docs[|docs| - 1].version;
    NextDocHistory(cfg, before, f, docs);
    NextChunkHistory(cfg, before, f, v, chunks, first);
    assert (RetireDocs(docs, |docs|) + [DocRecord(cfg, f, v + 1)])[|docs|] == DocRecord(cfg, f, v + 1);
  }

  lemma FirstHistory(cfg: Settings, f: File, first: nat)
    ensures IsHistory(cfg, f, [DocRecord(cfg, f, 1)], DocChunks(cfg, f, first, 1))
  {
    AppendVersion(cfg, f, [], first, 1);
    assert [] + DocChunks(cfg, f, first, 1) == DocChunks(cfg, f, first, 1);
  }

  // ----- the grouping agrees -----

  lemma {:induction false} VersionsAreOf(docs: seq<Doc>, n: nat, p: string, w: nat) returns (i: nat)
    requires n <= |docs| && w in Versions(docs, n, p)
    ensures i < |DocsOf(docs, p, n)| && DocsOf(docs, p, n)[i].version == w
  {
    if docs[n - 1].docId == p && docs[n - 1].version == w {
      i := |DocsOf(docs, p, n)| - 1;
    } else {
      i := VersionsAreOf(docs, n - 1, p, w);
    }
  }

  lemma {:induction false} LastGroups(docs: seq<Doc>, n: nat, p: string)
    requires n <= |docs| && DocsOf(docs, p, n) != []
    requires var ds := DocsOf(docs, p, n);
             forall i :: 0 <= i < |ds| - 1 ==> ds[i].version < ds[|ds| - 1].version
    ensures var ds := DocsOf(docs, p, n); var last := ds[|ds| - 1];
            && last.version in Versions(docs, n, p)
            && (forall w :: w in Versions(docs, n, p) ==> w <= last.version)
            && FirstHash(docs, n, p, last.version) == last.hash
  {
    var ds := DocsOf(docs, p, n);
    forall w | w in Versions(docs, n, p) ensures w <= ds[|ds| - 1].version {
      var i := VersionsAreOf(docs, n, p, w);
    }
    if docs[n - 1].docId == p {
      var v := docs[n - 1].version;
      var earlier := Versions(docs, n - 1, p);
      forall w | w in earlier ensures w < v {
        var i := VersionsAreOf(docs, n - 1, p, w);
        assert ds[i] == DocsOf(docs, p, n - 1)[i];
      }
    } else {
      LastGroups(docs, n - 1, p);
    }
  }

  lemma {:induction false} NoDocsNoVersions(docs: seq<Doc>, n: nat, p: string)
    requires n <= |docs|
    ensures DocsOf(docs, p, n) == [] <==> Versions(docs, n, p) == {}
  {
    if n > 0 {
      NoDocsNoVersions(docs, n - 1, p);
    }
  }

  /** `docs_by_id` names the last record of a document that has a history. */
  lemma HistoryGroups(cfg: Settings, f: File, docs: seq<Doc>)
    requires DocHistory(cfg, f, DocsOf(docs, f.path, |docs|))
    ensures var ds := DocsOf(docs, f.path, |docs|); var grouped := DocsById(docs, |docs|);
            && f.path in grouped
            && grouped[f.path].version == ds[|ds| - 1].version && grouped[f.path].hash == Sha(f.text)
  {
    DocsByIdGroups(docs, |docs|, f.path);
    LastGroups(docs, |docs|, f.path);
  }

  // ----- the invariant and its steps -----

  ghost predicate NoTrace(data: Lists, p: string) {
    AllDocsOf(data, p) == [] && AllChunksOf(data, p) == []
  }

  ghost predicate HasHistory(cfg: Settings, data: Lists, f: File) {
    IsHistory(cfg, f, AllDocsOf(data, f.path), AllChunksOf(data, f.path))
  }

  /** What every reachable index keeps, for the corpus it was last built from. */
  ghost predicate IsIndexOf(cfg: Settings, corpus: seq<File>, data: IndexData) {
    var lists := Lists(data.docs, data.chunks);
    && DistinctPaths(corpus)
    && data.docsById == DocsById(data.docs, |data.docs|)
    && (forall k :: 0 <= k < |corpus| ==> HasHistory(cfg, lists, corpus[k]))
    && (forall p :: p !in Paths(corpus, |corpus|) ==> NoTrace(lists, p))
  }

  lemma PreviousLatestIs(cfg: Settings, corpus: seq<File>, previous: IndexData)
    requires IsIndexOf(cfg, corpus, previous)
    ensures PreviousLatest(previous) == DocsById(previous.docs, |previous.docs|) == previous.docsById
  {
  }

  lemma NothingBefore(cfg: Settings, corpus: seq<File>, previous: IndexData, p: string)
    requires IsIndexOf(cfg, corpus, previous) && p !in Paths(corpus, |corpus|)
    ensures p !in PreviousLatest(previous)
  {
    assert NoTrace(Lists(previous.docs, previous.chunks), p);
    NoDocsNoVersions(previous.docs, |previous.docs|, p);
    DocsByIdGroups(previous.docs, |previous.docs|, p);
  }

  lemma IndexedBefore(cfg: Settings, corpus: seq<File>, previous: IndexData, p: string) returns (k: nat)
    requires IsIndexOf(cfg, corpus, previous) && p in Paths(corpus, |corpus|)
    ensures k < |corpus| && corpus[k].path == p && HasHistory(cfg, Lists(previous.docs, previous.chunks), corpus[k])
    ensures var docs := AllDocsOf(Lists(previous.docs, previous.chunks), p);
            && docs != [] && p in PreviousLatest(previous)
            && PreviousLatest(previous)[p].version == docs[|docs| - 1].version
            && PreviousLatest(previous)[p].hash == Sha(corpus[k].text)
  {
    PathsHave(corpus, |corpus|, p);
    k :| 0 <= k < |corpus| && corpus[k].path == p;
    HistoryGroups(cfg, corpus[k], previous.docs);
  }

  lemma CarriedOf(previous: IndexData, corpus: seq<File>, forced: set<string>, p: string)
    ensures var before, after := Lists(previous.docs, previous.chunks), Carried(previous, corpus, forced);
            var docs, chunks := AllDocsOf(before, p), AllChunksOf(before, p);
            && (p !in Paths(corpus, |corpus|) ==> NoTrace(after, p))
            && (p in Paths(corpus, |corpus|) && p in ChangedPaths(previous, corpus, forced) ==>
                  AllDocsOf(after, p) == RetireDocs(docs, |docs|) && AllChunksOf(after, p) == RetireChunks(chunks, |chunks|))
            && (p in Paths(corpus, |corpus|) && p !in ChangedPaths(previous, corpus, forced) ==>
                  AllDocsOf(after, p) == docs && AllChunksOf(after, p) == chunks)
  {
    KeptDocsOf(previous.docs, Paths(corpus, |corpus|), ChangedPaths(previous, corpus, forced), p, |previous.docs|);
    KeptChunksOf(previous.chunks, Paths(corpus, |corpus|), ChangedPaths(previous, corpus, forced), p, |previous.chunks|);
  }

  lemma NotAdded(previous: IndexData, corpus: seq<File>, forced: set<string>, p: string)
    requires p !in ChangedPaths(previous, corpus, forced)
    ensures var files := ChangedFiles(previous, corpus, forced);
            forall i :: 0 <= i < |files| ==> files[i].path != p
  {
    var files := ChangedFiles(previous, corpus, forced);
    PathsHave(files, |files|, p);
  }

  /** A document that is gone from the corpus leaves no record. */
  lemma DeletedLeavesNoTrace(cfg: Settings, previous: IndexData, corpus: seq<File>, forced: set<string>, p: string)
    requires DistinctPaths(corpus) && p !in Paths(corpus, |corpus|)
    ensures NoTrace(Versioned(cfg, previous, corpus, forced), p)
  {
    var files := ChangedFiles(previous, corpus, forced);
    ChangedFrom(corpus, PreviousLatest(previous), forced, |corpus|);
    PathsHave(files, |files|, p);
    CarriedOf(previous, corpus, forced, p);
    AddOthers(cfg, Carried(previous, corpus, forced), files, PreviousLatest(previous), |files|, p);
  }

  /** A document that is neither new nor edited nor forced keeps its records. */
  lemma UnchangedKeepsHistory(cfg: Settings, was: seq<File>, previous: IndexData, corpus: seq<File>, forced: set<string>, k: nat)
    requires IsIndexOf(cfg, was, previous) && DistinctPaths(corpus) && k < |corpus|
    requires !IsChanged(corpus[k], PreviousLatest(previous), forced)
    ensures HasHistory(cfg, Versioned(cfg, previous, corpus, forced), corpus[k])
    ensures var p, lists := corpus[k].path, Lists(previous.docs, previous.chunks);
            && AllDocsOf(Versioned(cfg, previous, corpus, forced), p) == AllDocsOf(lists, p)
            && AllChunksOf(Versioned(cfg, previous, corpus, forced), p) == AllChunksOf(lists, p)
  {
    var p, files := corpus[k].path, ChangedFiles(previous, corpus, forced);
    if p !in Paths(was, |was|) {
      NothingBefore(cfg, was, previous, p);
    }
    var j := IndexedBefore(cfg, was, previous, p);
    assert was[j] == corpus[k];
    FileChanges(previous, corpus, forced, k);
    PathsHave(corpus, |corpus|, p);
    NotAdded(previous, corpus, forced, p);
    CarriedOf(previous, corpus, forced, p);
    AddOthers(cfg, Carried(previous, corpus, forced), files, PreviousLatest(previous), |files|, p);
  }

  /** What a document's records are once it gained a version: the earlier ones, all retired, then
      one record and the chunks of the next version. */
  ghost predicate GainsVersion(cfg: Settings, before: Lists, after: Lists, f: File, first: nat, version: nat) {
    var docs, chunks := AllDocsOf(before, f.path), AllChunksOf(before, f.path);
    && AllDocsOf(after, f.path) == RetireDocs(docs, |docs|) + [DocRecord(cfg, f, version)]
    && AllChunksOf(after, f.path) == RetireChunks(chunks, |chunks|) + DocChunks(cfg, f, first, version)
  }

  lemma ChangedRecords(cfg: Settings, previous: IndexData, corpus: seq<File>, forced: set<string>, k: nat) returns (first: nat)
    requires DistinctPaths(corpus) && k < |corpus| && IsChanged(corpus[k], PreviousLatest(previous), forced)
    ensures GainsVersion(cfg, Lists(previous.docs, previous.chunks), Versioned(cfg, previous, corpus, forced), corpus[k], first,
                         NextVersion(PreviousLatest(previous), corpus[k].path))
  {
    var f, files, latest := corpus[k], ChangedFiles(previous, corpus, forced), PreviousLatest(previous);
    FileChanges(previous, corpus, forced, k);
    var i :| 0 <= i < |files| && files[i] == f;
    first := AddThis(cfg, Carried(previous, corpus, forced), files, latest, |files|, i);
    PathsHave(corpus, |corpus|, f.path);
    CarriedOf(previous, corpus, forced, f.path);
  }

  lemma GainsNext(cfg: Settings, was: File, f: File, before: Lists, after: Lists, first: nat, version: nat)
    requires was.path == f.path && HasHistory(cfg, before, was) && GainsVersion(cfg, before, after, f, first, version)
    requires var docs := AllDocsOf(before, f.path); docs != [] && version == docs[|docs| - 1].version + 1
    ensures HasHistory(cfg, after, f)
  {
    NextHistory(cfg, was, f, AllDocsOf(before, f.path), AllChunksOf(before, f.path), first);
  }

  lemma GainsFirst(cfg: Settings, f: File, before: Lists, after: Lists, first: nat)
    requires NoTrace(before, f.path) && GainsVersion(cfg, before, after, f, first, 1)
    ensures HasHistory(cfg, after, f)
  {
    FirstHistory(cfg, f, first);
    assert [] + [DocRecord(cfg, f, 1)] == [DocRecord(cfg, f, 1)];
    assert [] + DocChunks(cfg, f, first, 1) == DocChunks(cfg, f, first, 1);
  }

  /** A new, edited or forced document gains the version after its latest and retires the others. */
  lemma ChangedGainsVersion(cfg: Settings, was: seq<File>, previous: IndexData, corpus: seq<File>, forced: set<string>, k: nat)
    returns (first: nat)
    requires IsIndexOf(cfg, was, previous) && DistinctPaths(corpus) && k < |corpus|
    requires IsChanged(corpus[k], PreviousLatest(previous), forced)
    ensures HasHistory(cfg, Versioned(cfg, previous, corpus, forced), corpus[k])
    ensures GainsVersion(cfg, Lists(previous.docs, previous.chunks), Versioned(cfg, previous, corpus, forced), corpus[k], first,
                         NextVersion(PreviousLatest(previous), corpus[k].path))
  {
    var f, before, after := corpus[k], Lists(previous.docs, previous.chunks), Versioned(cfg, previous, corpus, forced);
    first := ChangedRecords(cfg, previous, corpus, forced, k);
    if f.path in Paths(was, |was|) {
      var j := IndexedBefore(cfg, was, previous, f.path);
      GainsNext(cfg, was[j], f, before, after, first, NextVersion(PreviousLatest(previous), f.path));
    } else {
      NothingBefore(cfg, was, previous, f.path);
      assert NoTrace(before, f.path);
      GainsFirst(cfg, f, before, after, first);
    }
  }

  lemma NoOthers(corpus: seq<File>, changed: set<string>, n: nat)
    requires n <= |corpus| && forall k :: 0 <= k < n ==> corpus[k].path in changed
    ensures Others(corpus, changed, n) == []
  {
    if n > 0 {
      NoOthers(corpus, changed, n - 1);
    }
  }

  lemma NothingElse(cfg: Settings, was: seq<File>, previous: IndexData, corpus: seq<File>, forced: set<string>)
    requires IsIndexOf(cfg, was, previous) && DistinctPaths(corpus) && previous.docs == []
    ensures Others(corpus, ChangedPaths(previous, corpus, forced), |corpus|) == []
  {
    forall k | 0 <= k < |corpus| ensures corpus[k].path in ChangedPaths(previous, corpus, forced) {
      assert PreviousLatest(previous) == map[];
      FileChanges(previous, corpus, forced, k);
    }
    NoOthers(corpus, ChangedPaths(previous, corpus, forced), |corpus|);
  }

  /** From a reachable index the fallback for a previous index without documents adds nothing. */
  lemma IncrementalIsVersioned(cfg: Settings, was: seq<File>, previous: IndexData, corpus: seq<File>, forced: set<string>)
    requires IsIndexOf(cfg, was, previous) && DistinctPaths(corpus)
    ensures Incremental(cfg, previous, corpus, forced) == Finish(Versioned(cfg, previous, corpus, forced))
  {
    if previous.docs == [] {
      NothingElse(cfg, was, previous, corpus, forced);
    }
  }

  /** Every step from a reachable index, whatever was edited, added, deleted, re-added or forced,
      leads to a reachable index. */
  lemma StepKeepsIndex(cfg: Settings, was: seq<File>, previous: IndexData, corpus: seq<File>, forced: set<string>)
    requires IsIndexOf(cfg, was, previous) && DistinctPaths(corpus)
    ensures IsIndexOf(cfg, corpus, Incremental(cfg, previous, corpus, forced))
  {
    IncrementalIsVersioned(cfg, was, previous, corpus, forced);
    var lists := Versioned(cfg, previous, corpus, forced);
    forall k | 0 <= k < |corpus| ensures HasHistory(cfg, lists, corpus[k]) {
      if IsChanged(corpus[k], PreviousLatest(previous), forced) {
        var _ := ChangedGainsVersion(cfg, was, previous, corpus, forced, k);
      } else {
        UnchangedKeepsHistory(cfg, was, previous, corpus, forced, k);
      }
    }
    forall p | p !in Paths(corpus, |corpus|) ensures NoTrace(lists, p) {
      DeletedLeavesNoTrace(cfg, previous, corpus, forced, p);
    }
  }

  const EMPTY: IndexData := IndexData([], [], map[])

  lemma EmptyIsIndex(cfg: Settings)
    ensures IsIndexOf(cfg, [], EMPTY)
  {
  }

  lemma {:induction false} AllChanged(corpus: seq<File>, n: nat)
    requires n <= |corpus|
    ensures Changed(corpus, map[], {}, n) == corpus[..n]
  {
    if n > 0 {
      AllChanged(corpus, n - 1);
    }
  }

  /** A full build is the incremental build from nothing. */
  lemma FullIsIncremental(cfg: Settings, corpus: seq<File>)
    requires DistinctPaths(corpus)
    ensures FullBuild(cfg, corpus) == Incremental(cfg, EMPTY, corpus, {})
  {
    EmptyIsIndex(cfg);
    IncrementalIsVersioned(cfg, [], EMPTY, corpus, {});
    AllChanged(corpus, |corpus|);
    assert corpus[..|corpus|] == corpus;
    assert Carried(EMPTY, corpus, {}) == Lists([], []);
  }

  lemma FullIsIndex(cfg: Settings, corpus: seq<File>)
    requires DistinctPaths(corpus)
    ensures IsIndexOf(cfg, corpus, FullBuild(cfg, corpus))
  {
    EmptyIsIndex(cfg);
    FullIsIncremental(cfg, corpus);
    StepKeepsIndex(cfg, [], EMPTY, corpus, {});
  }

  // ----- histories -----

  /** One run of the script: the corpus as it then is, and the documents it is told to reindex. */
  datatype Step = Step(corpus: seq<File>, forced: set<string>)

  predicate IsRun(corpus: seq<File>, steps: seq<Step>) {
    DistinctPaths(corpus) && DistinctSteps(steps, |steps|)
  }

  predicate DistinctSteps(steps: seq<Step>, n: nat)
    requires n <= |steps|
  {
    n == 0 || (DistinctSteps(steps, n - 1) && DistinctPaths(steps[n - 1].corpus))
  }

  /** A full build of a corpus followed by the first `n` incremental runs. */
  function Run(cfg: Settings, corpus: seq<File>, steps: seq<Step>, n: nat): IndexData
    requires n <= |steps|
  {
    if n == 0 then FullBuild(cfg, corpus)
    else Incremental(cfg, Run(cfg, corpus, steps, n - 1), steps[n - 1].corpus, steps[n - 1].forced)
  }

  function CorpusAfter(corpus: seq<File>, steps: seq<Step>, n: nat): seq<File>
    requires n <= |steps|
  {
    if n == 0 then corpus else steps[n - 1].corpus
  }

  lemma {:induction false} RunKeepsIndex(cfg: Settings, corpus: seq<File>, steps: seq<Step>, n: nat)
    requires n <= |steps| && DistinctPaths(corpus) && DistinctSteps(steps, n)
    ensures IsIndexOf(cfg, CorpusAfter(corpus, steps, n), Run(cfg, corpus, steps, n))
  {
    if n == 0 {
      FullIsIndex(cfg, corpus);
    } else {
      RunKeepsIndex(cfg, corpus, steps, n - 1);
      StepKeepsIndex(cfg, CorpusAfter(corpus, steps, n - 1), Run(cfg, corpus, steps, n - 1), steps[n - 1].corpus, steps[n - 1].forced);
    }
  }
}
