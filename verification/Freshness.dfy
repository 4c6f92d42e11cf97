/** `rag_ingest_freshness`: the incremental build, and what retrieval offers of an index. */
module Freshness {
  import opened Decimal
  import opened Index

  function Paths(files: seq<File>, n: nat): set<string>
    requires n <= |files|
  {
    if n == 0 then {} else Paths(files, n - 1) + {files[n - 1].path}
  }

  predicate DistinctTo(files: seq<File>, n: nat)
    requires n <= |files|
  {
    n == 0 || (DistinctTo(files, n - 1) && files[n - 1].path !in Paths(files, n - 1))
  }

  /** The files a corpus walk yields have distinct paths. */
  predicate DistinctPaths(files: seq<File>) {
    DistinctTo(files, |files|)
  }

  /** `previous.get("docs_by_id") or _docs_by_id(previous.get("docs", []))` */
  function PreviousLatest(previous: IndexData): map<string, Latest> {
    if previous.docsById == map[] then DocsById(previous.docs, |previous.docs|) else previous.docsById
  }

  predicate IsChanged(f: File, latest: map<string, Latest>, forced: set<string>) {
    f.path in forced || f.path !in latest || latest[f.path].hash != Sha(f.text)
  }

  /** The changed files among the first `n`. */
  function Changed(corpus: seq<File>, latest: map<string, Latest>, forced: set<string>, n: nat): (files: seq<File>)
    requires n <= |corpus|
    ensures |files| <= n
  {
    if n == 0 then []
    else if IsChanged(corpus[n - 1], latest, forced) then Changed(corpus, latest, forced, n - 1) + [corpus[n - 1]]
    else Changed(corpus, latest, forced, n - 1)
  }

  /** The files among the first `n` whose path is not in a set. */
  function Others(corpus: seq<File>, paths: set<string>, n: nat): seq<File>
    requires n <= |corpus|
  {
    if n == 0 then []
    else if corpus[n - 1].path in paths then Others(corpus, paths, n - 1)
    else Others(corpus, paths, n - 1) + [corpus[n - 1]]
  }

  /** `carry_forward_chunks`: chunks of deleted documents go, those of changed ones are retired. */
  function KeptChunks(chunks: seq<Chunk>, paths: set<string>, changed: set<string>, n: nat): seq<Chunk>
    requires n <= |chunks|
  {
    if n == 0 then []
    else
      var before, c := KeptChunks(chunks, paths, changed, n - 1), chunks[n - 1];
      if c.docId !in paths then before
      else before + [if c.docId in changed then c.(isLatest := false) else c]
  }

  /** `carry_forward_docs` */
  function KeptDocs(docs: seq<Doc>, paths: set<string>, changed: set<string>, n: nat): seq<Doc>
    requires n <= |docs|
  {
    if n == 0 then []
    else
      var before, d := KeptDocs(docs, paths, changed, n - 1), docs[n - 1];
      if d.docId !in paths then before
      else before + [if d.docId in changed then d.(isLatest := false) else d]
  }

  function ChangedFiles(previous: IndexData, corpus: seq<File>, forced: set<string>): seq<File> {
    Changed(corpus, PreviousLatest(previous), forced, |corpus|)
  }

  function ChangedPaths(previous: IndexData, corpus: seq<File>, forced: set<string>): set<string> {
    var files := ChangedFiles(previous, corpus, forced);
    Paths(files, |files|)
  }

  /** What is carried over from the previous index. */
  function Carried(previous: IndexData, corpus: seq<File>, forced: set<string>): Lists {
    var paths, changed := Paths(corpus, |corpus|), ChangedPaths(previous, corpus, forced);
    Lists(KeptDocs(previous.docs, paths, changed, |previous.docs|),
          KeptChunks(previous.chunks, paths, changed, |previous.chunks|))
  }

  /** The carried records and the new versions of the changed files. */
  function Versioned(cfg: Settings, previous: IndexData, corpus: seq<File>, forced: set<string>): Lists {
    var files := ChangedFiles(previous, corpus, forced);
    AddFiles(cfg, Carried(previous, corpus, forced), files, PreviousLatest(previous), |files|)
  }

  /** `build_incremental_index`, without its report. */
  function Incremental(cfg: Settings, previous: IndexData, corpus: seq<File>, forced: set<string>): IndexData {
    var lists := Versioned(cfg, previous, corpus, forced);
    if previous.docs == [] then
      var others := Others(corpus, ChangedPaths(previous, corpus, forced), |corpus|);
      Finish(AddFiles(cfg, lists, others, map[], |others|))
    else Finish(lists)
  }

  // ----- the report -----

  datatype Report = Report(changed: seq<string>, invalidated: map<string, set<Digest>>,
                           reembedded: nat, reused: nat, invalidatedCount: nat)

  function PathList(files: seq<File>, n: nat): seq<string>
    requires n <= |files|
  {
    if n == 0 then [] else PathList(files, n - 1) + [files[n - 1].path]
  }

  /** Per changed document the content hashes of its retired chunks; the sorted lists are kept as sets. */
  function InvalidatedHashes(chunks: seq<Chunk>, changed: set<string>, n: nat): map<string, set<Digest>>
    requires n <= |chunks|
  {
    if n == 0 then map[]
    else
      var before, c := InvalidatedHashes(chunks, changed, n - 1), chunks[n - 1];
      if c.docId in changed then before[c.docId := (if c.docId in before then before[c.docId] else {}) + {c.docHash}]
      else before
  }

  /** How many of the first `n` chunks belong to the documents, or to the others. */
  function CountOf(chunks: seq<Chunk>, docs: set<string>, wanted: bool, n: nat): nat
    requires n <= |chunks|
  {
    if n == 0 then 0 else CountOf(chunks, docs, wanted, n - 1) + (if (chunks[n - 1].docId in docs) == wanted then 1 else 0)
  }

  function CountLatestOf(chunks: seq<Chunk>, docs: set<string>, n: nat): nat
    requires n <= |chunks|
  {
    if n == 0 then 0
    else CountLatestOf(chunks, docs, n - 1) + (if chunks[n - 1].docId in docs && chunks[n - 1].isLatest then 1 else 0)
  }

  function ReportOf(cfg: Settings, previous: IndexData, corpus: seq<File>, forced: set<string>): Report {
    var files, changed := ChangedFiles(previous, corpus, forced), ChangedPaths(previous, corpus, forced);
    var kept, chunks := Carried(previous, corpus, forced).chunks, Incremental(cfg, previous, corpus, forced).chunks;
    Report(PathList(files, |files|), InvalidatedHashes(kept, changed, |kept|),
           CountLatestOf(chunks, changed, |chunks|),
           CountOf(kept, changed, false, |kept|), CountOf(kept, changed, true, |kept|))
  }

  // ----- the loops -----

  method CarryForwardChunks(chunks: seq<Chunk>, paths: set<string>, changed: set<string>)
    returns (kept: seq<Chunk>, invalidated: map<string, set<Digest>>)
    ensures kept == KeptChunks(chunks, paths, changed, |chunks|)
    ensures invalidated == InvalidatedHashes(kept, changed, |kept|)
  {
    kept, invalidated := [], map[];
    for i := 0 to |chunks|
      invariant kept == KeptChunks(chunks, paths, changed, i)
      invariant invalidated == InvalidatedHashes(kept, changed, |kept|)
    {
      var chunk := chunks[i];
      if chunk.docId in paths {
        var row := if chunk.docId in changed then chunk.(isLatest := false) else chunk;
        InvalidatedSnoc(kept, row, changed, |kept|);
        kept := kept + [row];
        if row.docId in changed {
          var seen := if row.docId in invalidated then invalidated[row.docId] else {};
          invalidated := invalidated[row.docId := seen + {row.docHash}];
        }
      }
    }
  }

  lemma {:induction false} InvalidatedSnoc(chunks: seq<Chunk>, c: Chunk, changed: set<string>, n: nat)
    requires n <= |chunks|
    ensures InvalidatedHashes(chunks + [c], changed, n) == InvalidatedHashes(chunks, changed, n)
  {
    if n > 0 {
      InvalidatedSnoc(chunks, c, changed, n - 1);
    }
  }

  method CarryForwardDocs(docs: seq<Doc>, paths: set<string>, changed: set<string>) returns (kept: seq<Doc>)
    ensures kept == KeptDocs(docs, paths, changed, |docs|)
  {
    kept := [];
    for i := 0 to |docs|
      invariant kept == KeptDocs(docs, paths, changed, i)
    {
      if docs[i].docId in paths {
        kept := kept + [if docs[i].docId in changed then docs[i].(isLatest := false) else docs[i]];
      }
    }
  }

  method ChangedDocPaths(corpus: seq<File>, latest: map<string, Latest>, forced: set<string>)
    returns (paths: set<string>, changed: seq<File>, changedSet: set<string>)
    ensures paths == Paths(corpus, |corpus|)
    ensures changed == Changed(corpus, latest, forced, |corpus|)
    ensures changedSet == Paths(changed, |changed|)
  {
    paths, changed, changedSet := {}, [], {};
    for i := 0 to |corpus|
      invariant paths == Paths(corpus, i)
      invariant changed == Changed(corpus, latest, forced, i)
      invariant changedSet == Paths(changed, |changed|)
    {
      paths := paths + {corpus[i].path};
      if IsChanged(corpus[i], latest, forced) {
        PathsSnoc(changed, corpus[i], |changed|);
        changed, changedSet := changed + [corpus[i]], changedSet + {corpus[i].path};
      }
    }
  }

  lemma {:induction false} PathsSnoc(files: seq<File>, f: File, n: nat)
    requires n <= |files|
    ensures Paths(files + [f], n) == Paths(files, n)
  {
    if n > 0 {
      PathsSnoc(files, f, n - 1);
    }
  }

  /** `add_changed_versions` */
  method AddChangedVersions(store: Store, cfg: Settings, files: seq<File>, latest: map<string, Latest>)
    requires StructureAware(cfg)
    modifies store
    ensures Lists(store.docs, store.chunks) == AddFiles(cfg, old(Lists(store.docs, store.chunks)), files, latest, |files|)
  {
    ghost var start := Lists(store.docs, store.chunks);
    for i := 0 to |files|
      invariant Lists(store.docs, store.chunks) == AddFiles(cfg, start, files, latest, i)
    {
      var latestVersion := if files[i].path in latest then latest[files[i].path].version else 0;
      store.Add(cfg, files[i], latestVersion + 1);
      assert latestVersion + 1 == NextVersion(latest, files[i].path);
    }
  }

  /** `add_missing_full_rebuild_docs` */
  method AddMissingDocs(store: Store, cfg: Settings, corpus: seq<File>, changed: set<string>)
    requires StructureAware(cfg)
    modifies store
    ensures var others := Others(corpus, changed, |corpus|);
            Lists(store.docs, store.chunks) == AddFiles(cfg, old(Lists(store.docs, store.chunks)), others, map[], |others|)
  {
    ghost var start, others: seq<File> := Lists(store.docs, store.chunks), [];
    for i := 0 to |corpus|
      invariant others == Others(corpus, changed, i)
      invariant Lists(store.docs, store.chunks) == AddFiles(cfg, start, others, map[], |others|)
    {
      if corpus[i].path !in changed {
        AddFilesSnoc(cfg, start, others, corpus[i], map[], |others|);
        store.Add(cfg, corpus[i], 1);
        others := others + [corpus[i]];
      }
    }
  }

  lemma {:induction false} AddFilesSnoc(cfg: Settings, base: Lists, files: seq<File>, f: File, latest: map<string, Latest>, n: nat)
    requires n <= |files|
    ensures AddFiles(cfg, base, files + [f], latest, n) == AddFiles(cfg, base, files, latest, n)
  {
    if n > 0 {
      AddFilesSnoc(cfg, base, files, f, latest, n - 1);
      assert (files + [f])[n - 1] == files[n - 1];
    }
  }

  method CountChunks(chunks: seq<Chunk>, kept: seq<Chunk>, changed: set<string>)
    returns (reembedded: nat, reused: nat, invalidated: nat)
    ensures reembedded == CountLatestOf(chunks, changed, |chunks|)
    ensures reused == CountOf(kept, changed, false, |kept|)
    ensures invalidated == CountOf(kept, changed, true, |kept|)
  {
    reembedded, reused, invalidated := 0, 0, 0;
    for i := 0 to |chunks|
      invariant reembedded == CountLatestOf(chunks, changed, i)
    {
      if chunks[i].docId in changed && chunks[i].isLatest {
        reembedded := reembedded + 1;
      }
    }
    for i := 0 to |kept|
      invariant reused == CountOf(kept, changed, false, i) && invalidated == CountOf(kept, changed, true, i)
    {
      if kept[i].docId in changed {
        invalidated := invalidated + 1;
      } else {
        reused := reused + 1;
      }
    }
  }

  /** `build_incremental_index` */
  method BuildIncremental(cfg: Settings, previous: IndexData, corpus: seq<File>, forced: set<string>)
    returns (store: Store, report: Report)
    requires StructureAware(cfg)
    ensures fresh(store) && store.Data() == Incremental(cfg, previous, corpus, forced)
    ensures report == ReportOf(cfg, previous, corpus, forced)
  {
    var latest := previous.docsById;
    if latest == map[] {
      latest := GroupDocs(previous.docs);
    }
    var paths, changed, changedSet := ChangedDocPaths(corpus, latest, forced);
    store := new Store();
    var kept, invalidated := CarryForwardChunks(previous.chunks, paths, changedSet);
    store.chunks := kept;
    store.docs := CarryForwardDocs(previous.docs, paths, changedSet);
    AddChangedVersions(store, cfg, changed, latest);
    if previous.docs == [] {
      AddMissingDocs(store, cfg, corpus, changedSet);
    }
    store.Group();
    var reembedded, reused, invalidatedCount := CountChunks(store.chunks, kept, changedSet);
    var changedPaths := ListPaths(changed);
    report := Report(changedPaths, invalidated, reembedded, reused, invalidatedCount);
  }

  method ListPaths(files: seq<File>) returns (paths: seq<string>)
    ensures paths == PathList(files, |files|)
  {
    paths := [];
    for i := 0 to |files|
      invariant paths == PathList(files, i)
    {
      paths := paths + [files[i].path];
    }
  }

  // ----- what retrieval offers -----

  /** `chunk_metadata`: of the keys it copies, the chunks of an index carry only the version. */
  function Metadata(c: Chunk): map<string, string> {
    map["doc_version" := Print(c.version)]
  }

  predicate Matches(c: Chunk, filters: map<string, string>) {
    forall key :: key in filters ==> (if key in Metadata(c) then Metadata(c)[key] else "") == filters[key]
  }

  predicate IsOffered(data: IndexData, filters: map<string, string>, c: Chunk) {
    !(data.docsById != map[] && "doc_version" !in filters && !c.isLatest) && Matches(c, filters)
  }

  /** `candidate_chunks` over the first `n` chunks. */
  function Candidates(data: IndexData, filters: map<string, string>, n: nat): seq<Chunk>
    requires n <= |data.chunks|
  {
    if n == 0 then []
    else if IsOffered(data, filters, data.chunks[n - 1]) then Candidates(data, filters, n - 1) + [data.chunks[n - 1]]
    else Candidates(data, filters, n - 1)
  }

  /** `candidate_chunks`, as the loop the script runs. */
  method CandidateChunks(data: IndexData, filters: map<string, string>) returns (rows: seq<Chunk>)
    ensures rows == Candidates(data, filters, |data.chunks|)
  {
    rows := [];
    var latestDefault := data.docsById != map[] && "doc_version" !in filters;
    for i := 0 to |data.chunks|
      invariant rows == Candidates(data, filters, i)
    {
      var chunk := data.chunks[i];
      if !(latestDefault && !chunk.isLatest) && Matches(chunk, filters) {
        rows := rows + [chunk];
      }
    }
  }
}
