/** What retrieval and the index records promise after any history of incremental builds. */
module Agreement {
  import opened Decimal
  import opened Pairs
  import opened Index
  import opened Freshness
  import opened History

  /** What of a chunk must agree with a rebuild: all but the version and the ordinal, and the
      embedded text wherever it does not name the ordinal. */
  datatype Passage = Passage(heading: string, text: string, textHash: Digest, docHash: Digest, embedding: Embedding)

  function PassageOf(cfg: Settings, c: Chunk): Passage {
    Passage(c.heading, c.text, c.textHash, c.docHash,
            if cfg.lateChunking || !cfg.contextualPrefix then c.embeddingInput else NoEmbedding)
  }

  function PassagesOf(cfg: Settings, chunks: seq<Chunk>, n: nat): (passages: seq<Passage>)
    requires n <= |chunks|
    ensures |passages| == n
  {
    if n == 0 then [] else PassagesOf(cfg, chunks, n - 1) + [PassageOf(cfg, chunks[n - 1])]
  }

  /** What `candidate_chunks` offers of a document without filters, in order. */
  function Offered(cfg: Settings, data: IndexData, p: string): seq<Passage> {
    var rows := Candidates(data, map[], |data.chunks|);
    var mine := ChunksOf(rows, p, |rows|);
    PassagesOf(cfg, mine, |mine|)
  }

  function LatestOf(chunks: seq<Chunk>, n: nat): seq<Chunk>
    requires n <= |chunks|
  {
    if n == 0 then []
    else if chunks[n - 1].isLatest then LatestOf(chunks, n - 1) + [chunks[n - 1]]
    else LatestOf(chunks, n - 1)
  }

  lemma {:induction false} LatestSnoc(chunks: seq<Chunk>, c: Chunk, n: nat)
    requires n <= |chunks|
    ensures LatestOf(chunks + [c], n) == LatestOf(chunks, n)
  {
    if n > 0 {
      LatestSnoc(chunks, c, n - 1);
    }
  }

  lemma {:induction false} CandidatesOf(data: IndexData, p: string, n: nat)
    requires n <= |data.chunks| && data.docsById != map[]
    ensures var rows, mine := Candidates(data, map[], n), ChunksOf(data.chunks, p, n);
            ChunksOf(rows, p, |rows|) == LatestOf(mine, |mine|)
  {
    if n > 0 {
      CandidatesOf(data, p, n - 1);
      var rows, mine, c := Candidates(data, map[], n - 1), ChunksOf(data.chunks, p, n - 1), data.chunks[n - 1];
      ChunksOfPrefix(rows, [c], p, |rows|);
      LatestSnoc(mine, c, |mine|);
    }
  }

  lemma {:induction false} LatestOfHistory(retired: seq<Chunk>, more: seq<Chunk>, version: nat, n: nat)
    requires n <= |retired| + |more| && Retired(retired, version) && forall i :: 0 <= i < |more| ==> more[i].isLatest
    ensures LatestOf(retired + more, n) == if n <= |retired| then [] else more[..n - |retired|]
  {
    if n > 0 {
      LatestOfHistory(retired, more, version, n - 1);
      if n > |retired| {
        var m := n - |retired|;
        assert more[..m] == more[..m - 1] + [more[m - 1]];
      }
    }
  }

  lemma LatestOfChunkHistory(cfg: Settings, f: File, version: nat, chunks: seq<Chunk>) returns (first: nat)
    requires ChunkHistory(cfg, f, version, chunks)
    ensures LatestOf(chunks, |chunks|) == DocChunks(cfg, f, first, version)
  {
    var retired, n :| Retired(retired, version) && chunks == retired + DocChunks(cfg, f, n, version);
    first := n;
    var more := DocChunks(cfg, f, first, version);
    forall i | 0 <= i < |more| ensures more[i].isLatest {
      DocChunkAt(cfg, f, first, version, i);
    }
    LatestOfHistory(retired, more, version, |chunks|);
    assert more[..|more|] == more;
  }

  /** The passages of a version depend on neither its number nor its first ordinal. */
  lemma {:induction false} SamePassages(cfg: Settings, f: File, pairs: seq<Pair>, first: nat, version: nat, first': nat, version': nat, n: nat)
    requires n <= |pairs|
    ensures PassagesOf(cfg, MakeChunks(cfg, f, pairs, first, version, n), n)
         == PassagesOf(cfg, MakeChunks(cfg, f, pairs, first', version', n), n)
  {
    if n > 0 {
      SamePassages(cfg, f, pairs, first, version, first', version', n - 1);
      PassagesPrefix(cfg, MakeChunks(cfg, f, pairs, first, version, n - 1), MakeChunk(cfg, f, pairs[n - 1], first + n - 1, version), n - 1);
      PassagesPrefix(cfg, MakeChunks(cfg, f, pairs, first', version', n - 1), MakeChunk(cfg, f, pairs[n - 1], first' + n - 1, version'), n - 1);
    }
  }

  lemma {:induction false} PassagesPrefix(cfg: Settings, chunks: seq<Chunk>, c: Chunk, n: nat)
    requires n <= |chunks|
    ensures PassagesOf(cfg, chunks + [c], n) == PassagesOf(cfg, chunks, n)
  {
    if n > 0 {
      PassagesPrefix(cfg, chunks, c, n - 1);
    }
  }

  /** What a document is offered as in any index of a corpus that holds it. */
  lemma OfferedOfFile(cfg: Settings, corpus: seq<File>, data: IndexData, k: nat)
    requires IsIndexOf(cfg, corpus, data) && k < |corpus|
    ensures var expected := DocChunks(cfg, corpus[k], 1, 1);
            Offered(cfg, data, corpus[k].path) == PassagesOf(cfg, expected, |expected|)
  {
    var f := corpus[k];
    var mine := ChunksOf(data.chunks, f.path, |data.chunks|);
    HistoryGroups(cfg, f, data.docs);
    CandidatesOf(data, f.path, |data.chunks|);
    var docs := DocsOf(data.docs, f.path, |data.docs|);
    var version := docs[|docs| - 1].version;
    var first := LatestOfChunkHistory(cfg, f, version, mine);
    SamePassages(cfg, f, cfg.split(f.text), first, version, 1, 1, |cfg.split(f.text)|);
  }

  lemma {:induction false} CandidatesLeaveNothing(data: IndexData, filters: map<string, string>, p: string, n: nat)
    requires n <= |data.chunks| && ChunksOf(data.chunks, p, n) == []
    ensures var rows := Candidates(data, filters, n); ChunksOf(rows, p, |rows|) == []
  {
    if n > 0 {
      CandidatesLeaveNothing(data, filters, p, n - 1);
      var rows := Candidates(data, filters, n - 1);
      ChunksOfPrefix(rows, [data.chunks[n - 1]], p, |rows|);
    }
  }

  /** Two indexes of the same corpus, however they came about, offer the same passages of every
      document, in the same order. */
  lemma IndexesAgree(cfg: Settings, corpus: seq<File>, a: IndexData, b: IndexData, p: string)
    requires IsIndexOf(cfg, corpus, a) && IsIndexOf(cfg, corpus, b)
    ensures Offered(cfg, a, p) == Offered(cfg, b, p)
  {
    PathsHave(corpus, |corpus|, p);
    if k :| 0 <= k < |corpus| && corpus[k].path == p {
      OfferedOfFile(cfg, corpus, a, k);
      OfferedOfFile(cfg, corpus, b, k);
    } else {
      assert NoTrace(Lists(a.docs, a.chunks), p) && NoTrace(Lists(b.docs, b.chunks), p);
      CandidatesLeaveNothing(a, map[], p, |a.chunks|);
      CandidatesLeaveNothing(b, map[], p, |b.chunks|);
    }
  }

  /** After any history of edits, additions, deletions, re-additions and forced reindexes, the
      incremental index offers of every document what a full build of the current corpus offers. */
  lemma RunAgreesWithRebuild(cfg: Settings, corpus: seq<File>, steps: seq<Step>, p: string)
    requires IsRun(corpus, steps)
    ensures Offered(cfg, Run(cfg, corpus, steps, |steps|), p)
         == Offered(cfg, FullBuild(cfg, CorpusAfter(corpus, steps, |steps|)), p)
  {
    var now := CorpusAfter(corpus, steps, |steps|);
    RunKeepsIndex(cfg, corpus, steps, |steps|);
    FullIsIndex(cfg, now);
    IndexesAgree(cfg, now, Run(cfg, corpus, steps, |steps|), FullBuild(cfg, now), p);
  }

  // ----- versions -----

  lemma NoTraceIs(cfg: Settings, corpus: seq<File>, data: IndexData, p: string)
    requires IsIndexOf(cfg, corpus, data) && p !in Paths(corpus, |corpus|)
    ensures DocsOf(data.docs, p, |data.docs|) == [] && ChunksOf(data.chunks, p, |data.chunks|) == []
    ensures p !in data.docsById
  {
    assert NoTrace(Lists(data.docs, data.chunks), p);
    NoDocsNoVersions(data.docs, |data.docs|, p);
    DocsByIdGroups(data.docs, |data.docs|, p);
  }

  /** The last record is the file's, latest, and named by `docs_by_id`; the others are retired and older. */
  ghost predicate OneLatest(cfg: Settings, f: File, data: IndexData) {
    var docs := DocsOf(data.docs, f.path, |data.docs|);
    && docs != [] && f.path in data.docsById
    && data.docsById[f.path].hash == Sha(f.text)
    && docs[|docs| - 1] == DocRecord(cfg, f, data.docsById[f.path].version)
    && forall i :: 0 <= i < |docs| - 1 ==> !docs[i].isLatest && docs[i].version < data.docsById[f.path].version
  }

  lemma IndexHasOneLatest(cfg: Settings, corpus: seq<File>, data: IndexData, k: nat)
    requires IsIndexOf(cfg, corpus, data) && k < |corpus|
    ensures OneLatest(cfg, corpus[k], data)
  {
    assert HasHistory(cfg, Lists(data.docs, data.chunks), corpus[k]);
    HistoryGroups(cfg, corpus[k], data.docs);
  }

  /** After any history every document of the corpus has exactly one latest record, with its hash and
      the greatest version, and nothing is left of a document that is not in the corpus. */
  lemma OneLatestRecord(cfg: Settings, corpus: seq<File>, steps: seq<Step>, p: string)
    requires IsRun(corpus, steps)
    ensures var data, now := Run(cfg, corpus, steps, |steps|), CorpusAfter(corpus, steps, |steps|);
            && (forall k :: 0 <= k < |now| && now[k].path == p ==> OneLatest(cfg, now[k], data))
            && (p !in Paths(now, |now|) ==>
                  DocsOf(data.docs, p, |data.docs|) == [] && ChunksOf(data.chunks, p, |data.chunks|) == [] && p !in data.docsById)
  {
    var data, now := Run(cfg, corpus, steps, |steps|), CorpusAfter(corpus, steps, |steps|);
    RunKeepsIndex(cfg, corpus, steps, |steps|);
    if p !in Paths(now, |now|) {
      NoTraceIs(cfg, now, data, p);
    }
    forall k | 0 <= k < |now| && now[k].path == p ensures OneLatest(cfg, now[k], data) {
      IndexHasOneLatest(cfg, now, data, k);
    }
  }

  /** Where chunk `i` stands among the chunks of its document. */
  lemma {:induction false} PositionOf(chunks: seq<Chunk>, n: nat, i: nat)
    requires i < n <= |chunks|
    ensures var p := chunks[i].docId;
            && |ChunksOf(chunks, p, i)| < |ChunksOf(chunks, p, i + 1)| <= |ChunksOf(chunks, p, n)|
            && ChunksOf(chunks, p, n)[|ChunksOf(chunks, p, i)|] == chunks[i]
  {
    if i < n - 1 {
      PositionOf(chunks, n - 1, i);
    }
  }

  lemma {:induction false} MoreChunks(chunks: seq<Chunk>, p: string, i: nat, j: nat)
    requires i <= j <= |chunks|
    ensures |ChunksOf(chunks, p, i)| <= |ChunksOf(chunks, p, j)|
    decreases j - i
  {
    if i < j {
      MoreChunks(chunks, p, i, j - 1);
    }
  }

  /** After any history no two chunks share document, version and ordinal, and chunk ids are unique,
      even though ordinals alone may repeat. */
  lemma ChunkIdsAreUnique(cfg: Settings, corpus: seq<File>, steps: seq<Step>, i: nat, j: nat)
    requires IsRun(corpus, steps) && i < j < |Run(cfg, corpus, steps, |steps|).chunks|
    ensures var chunks := Run(cfg, corpus, steps, |steps|).chunks;
            && chunks[i].id != chunks[j].id
            && (chunks[i].docId, chunks[i].version, chunks[i].ordinal) != (chunks[j].docId, chunks[j].version, chunks[j].ordinal)
  {
    var data, now := Run(cfg, corpus, steps, |steps|), CorpusAfter(corpus, steps, |steps|);
    var chunks := data.chunks;
    RunKeepsIndex(cfg, corpus, steps, |steps|);
    TrueIdAt(cfg, now, data, i);
    TrueIdAt(cfg, now, data, j);
    if chunks[i].docId == chunks[j].docId {
      var p := chunks[i].docId;
      MoreChunks(chunks, p, i + 1, j);
      PositionOf(chunks, j, i);
    }
  }

  /** A chunk of a reachable index carries the id of its own columns, among distinct keys. */
  lemma TrueIdAt(cfg: Settings, corpus: seq<File>, data: IndexData, i: nat)
    requires IsIndexOf(cfg, corpus, data) && i < |data.chunks|
    ensures var c, mine := data.chunks[i], ChunksOf(data.chunks, data.chunks[i].docId, |data.chunks|);
            && c.id == ChunkId(c.docId, c.docHash, c.version, c.ordinal, c.text)
            && DistinctKeys(mine)
            && |ChunksOf(data.chunks, c.docId, i)| < |mine|
            && mine[|ChunksOf(data.chunks, c.docId, i)|] == c
  {
    var p := data.chunks[i].docId;
    PositionOf(data.chunks, |data.chunks|, i);
    if p !in Paths(corpus, |corpus|) {
      NoTraceIs(cfg, corpus, data, p);
    }
    PathsHave(corpus, |corpus|, p);
    var k :| 0 <= k < |corpus| && corpus[k].path == p;
    assert HasHistory(cfg, Lists(data.docs, data.chunks), corpus[k]);
  }

  // ----- running again -----

  lemma {:induction false} KeptAllDocs(docs: seq<Doc>, paths: set<string>, n: nat)
    requires n <= |docs| && forall i :: 0 <= i < n ==> docs[i].docId in paths
    ensures KeptDocs(docs, paths, {}, n) == docs[..n]
  {
    if n > 0 {
      KeptAllDocs(docs, paths, n - 1);
    }
  }

  lemma {:induction false} KeptAllChunks(chunks: seq<Chunk>, paths: set<string>, n: nat)
    requires n <= |chunks| && forall i :: 0 <= i < n ==> chunks[i].docId in paths
    ensures KeptChunks(chunks, paths, {}, n) == chunks[..n]
  {
    if n > 0 {
      KeptAllChunks(chunks, paths, n - 1);
    }
  }

  lemma {:induction false} DocIsOf(docs: seq<Doc>, n: nat, i: nat)
    requires i < n <= |docs|
    ensures DocsOf(docs, docs[i].docId, n) != []
  {
    if i < n - 1 {
      DocIsOf(docs, n - 1, i);
    }
  }

  lemma {:induction false} NothingChanged(corpus: seq<File>, latest: map<string, Latest>, n: nat)
    requires n <= |corpus| && forall k :: 0 <= k < n ==> !IsChanged(corpus[k], latest, {})
    ensures Changed(corpus, latest, {}, n) == []
  {
    if n > 0 {
      NothingChanged(corpus, latest, n - 1);
    }
  }

  /** An incremental build on an unchanged corpus with nothing forced leaves the index as it is. */
  lemma RebuildIsIdempotent(cfg: Settings, corpus: seq<File>, data: IndexData)
    requires IsIndexOf(cfg, corpus, data)
    ensures Incremental(cfg, data, corpus, {}) == data
  {
    var lists := Lists(data.docs, data.chunks);
    PreviousLatestIs(cfg, corpus, data);
    forall k | 0 <= k < |corpus| ensures !IsChanged(corpus[k], PreviousLatest(data), {}) {
      assert HasHistory(cfg, lists, corpus[k]);
      HistoryGroups(cfg, corpus[k], data.docs);
    }
    NothingChanged(corpus, PreviousLatest(data), |corpus|);
    forall i | 0 <= i < |data.docs| ensures data.docs[i].docId in Paths(corpus, |corpus|) {
      DocIsOf(data.docs, |data.docs|, i);
      assert !NoTrace(lists, data.docs[i].docId);
    }
    forall i | 0 <= i < |data.chunks| ensures data.chunks[i].docId in Paths(corpus, |corpus|) {
      PositionOf(data.chunks, |data.chunks|, i);
      assert !NoTrace(lists, data.chunks[i].docId);
    }
    KeptAllDocs(data.docs, Paths(corpus, |corpus|), |data.docs|);
    KeptAllChunks(data.chunks, Paths(corpus, |corpus|), |data.chunks|);
    assert data.docs[..|data.docs|] == data.docs && data.chunks[..|data.chunks|] == data.chunks;
    IncrementalIsVersioned(cfg, corpus, data, corpus, {});
  }

  // ----- pinned versions -----

  function OfVersion(chunks: seq<Chunk>, v: nat, n: nat): seq<Chunk>
    requires n <= |chunks|
  {
    if n == 0 then []
    else if chunks[n - 1].version == v then OfVersion(chunks, v, n - 1) + [chunks[n - 1]]
    else OfVersion(chunks, v, n - 1)
  }

  /** What `candidate_chunks` offers of a document when the filter pins a version. */
  function Pinned(data: IndexData, p: string, v: nat): seq<Chunk> {
    var rows := Candidates(data, Pin(v), |data.chunks|);
    ChunksOf(rows, p, |rows|)
  }

  lemma PinnedOf(data: IndexData, p: string, v: nat)
    ensures var mine := ChunksOf(data.chunks, p, |data.chunks|);
            Pinned(data, p, v) == OfVersion(mine, v, |mine|)
  {
    var n := |data.chunks|;
    CandidatesAreSelected(data, Pin(v), n);
    PinFlags(data, v, n);
    PinnedIs(data.chunks, Flags(data, Pin(v), n), p, v, n);
  }

  lemma {:induction false} OfVersionSnoc(chunks: seq<Chunk>, c: Chunk, v: nat, n: nat)
    requires n <= |chunks|
    ensures OfVersion(chunks + [c], v, n) == OfVersion(chunks, v, n)
  {
    if n > 0 {
      OfVersionSnoc(chunks, c, v, n - 1);
    }
  }

  function Pin(v: nat): map<string, string> {
    map["doc_version" := Print(v)]
  }

  lemma PinMatches(data: IndexData, c: Chunk, v: nat)
    ensures IsOffered(data, Pin(v), c) <==> c.version == v
  {
    assert "doc_version" in Pin(v);
    if Print(c.version) == Print(v) {
      PrintInjective(c.version, v);
    }
    assert Metadata(c)["doc_version"] == Print(c.version);
    assert forall key :: key in Pin(v) ==> key == "doc_version";
  }

  function Flags(data: IndexData, filters: map<string, string>, n: nat): (flags: seq<bool>)
    requires n <= |data.chunks|
    ensures |flags| == n
  {
    if n == 0 then [] else Flags(data, filters, n - 1) + [IsOffered(data, filters, data.chunks[n - 1])]
  }

  function Select(chunks: seq<Chunk>, flags: seq<bool>, n: nat): seq<Chunk>
    requires n <= |chunks| && n <= |flags|
  {
    if n == 0 then []
    else if flags[n - 1] then Select(chunks, flags, n - 1) + [chunks[n - 1]]
    else Select(chunks, flags, n - 1)
  }

  lemma {:induction false} SelectPrefix(chunks: seq<Chunk>, flags: seq<bool>, flag: bool, n: nat)
    requires n <= |chunks| && n <= |flags|
    ensures Select(chunks, flags + [flag], n) == Select(chunks, flags, n)
  {
    if n > 0 {
      SelectPrefix(chunks, flags, flag, n - 1);
    }
  }

  lemma {:induction false} CandidatesAreSelected(data: IndexData, filters: map<string, string>, n: nat)
    requires n <= |data.chunks|
    ensures Candidates(data, filters, n) == Select(data.chunks, Flags(data, filters, n), n)
  {
    if n > 0 {
      CandidatesAreSelected(data, filters, n - 1);
      SelectPrefix(data.chunks, Flags(data, filters, n - 1), IsOffered(data, filters, data.chunks[n - 1]), n - 1);
    }
  }

  lemma {:induction false} PinFlags(data: IndexData, v: nat, n: nat)
    requires n <= |data.chunks|
    ensures forall i :: 0 <= i < n ==> Flags(data, Pin(v), n)[i] == (data.chunks[i].version == v)
  {
    if n > 0 {
      PinFlags(data, v, n - 1);
      PinMatches(data, data.chunks[n - 1], v);
    }
  }

  /** Selecting a version and then a document is selecting the document and then the version. */
  lemma {:induction false} PinnedIs(chunks: seq<Chunk>, flags: seq<bool>, p: string, v: nat, n: nat)
    requires n <= |chunks| == |flags| && forall i :: 0 <= i < |chunks| ==> flags[i] == (chunks[i].version == v)
    ensures var rows, mine := Select(chunks, flags, n), ChunksOf(chunks, p, n);
            ChunksOf(rows, p, |rows|) == OfVersion(mine, v, |mine|)
  {
    if n > 0 {
      PinnedIs(chunks, flags, p, v, n - 1);
      var rows, mine, c := Select(chunks, flags, n - 1), ChunksOf(chunks, p, n - 1), chunks[n - 1];
      ChunksOfPrefix(rows, [c], p, |rows|);
      OfVersionSnoc(mine, c, v, |mine|);
    }
  }

  lemma {:induction false} RetiredOfVersion(chunks: seq<Chunk>, v: nat, n: nat)
    requires n <= |chunks|
    ensures OfVersion(RetireChunks(chunks, n), v, n) == RetireChunks(OfVersion(chunks, v, n), |OfVersion(chunks, v, n)|)
  {
    if n > 0 {
      RetiredOfVersion(chunks, v, n - 1);
      OfVersionSnoc(RetireChunks(chunks, n - 1), chunks[n - 1].(isLatest := false), v, n - 1);
      if chunks[n - 1].version == v {
        RetireChunksSnoc(OfVersion(chunks, v, n - 1), chunks[n - 1], |OfVersion(chunks, v, n - 1)|);
      }
    }
  }

  predicate NoneOf(chunks: seq<Chunk>, v: nat, n: nat)
    requires n <= |chunks|
  {
    n == 0 || (NoneOf(chunks, v, n - 1) && chunks[n - 1].version != v)
  }

  lemma {:induction false} OtherVersionAppended(chunks: seq<Chunk>, more: seq<Chunk>, v: nat, n: nat)
    requires n <= |more| && NoneOf(more, v, n)
    ensures OfVersion(chunks + more, v, |chunks| + n) == OfVersion(chunks, v, |chunks|)
  {
    if n > 0 {
      OtherVersionAppended(chunks, more, v, n - 1);
    } else {
      OfVersionPrefix(chunks, more, v, |chunks|);
    }
  }

  lemma {:induction false} OfVersionPrefix(chunks: seq<Chunk>, more: seq<Chunk>, v: nat, n: nat)
    requires n <= |chunks|
    ensures OfVersion(chunks + more, v, n) == OfVersion(chunks, v, n)
  {
    if n > 0 {
      OfVersionPrefix(chunks, more, v, n - 1);
    }
  }

  /** Retired or not, the chunks as they were indexed. */
  function AsIndexed(chunks: seq<Chunk>): seq<Chunk> {
    RetireChunks(chunks, |chunks|)
  }

  lemma {:induction false} RetiredTwice(chunks: seq<Chunk>, n: nat)
    requires n <= |chunks|
    ensures RetireChunks(RetireChunks(chunks, n), n) == RetireChunks(chunks, n)
  {
    if n > 0 {
      RetiredTwice(chunks, n - 1);
      RetireChunksSnoc(RetireChunks(chunks, n - 1), chunks[n - 1].(isLatest := false), n - 1);
    }
  }

  /** A step changes a document's chunks only by retiring them and adding a later version. */
  lemma ChunksAfterStep(cfg: Settings, was: seq<File>, previous: IndexData, corpus: seq<File>, forced: set<string>, k: nat)
    returns (first: nat, version: nat)
    requires IsIndexOf(cfg, was, previous) && DistinctPaths(corpus) && k < |corpus|
    ensures var p := corpus[k].path;
            var before := ChunksOf(previous.chunks, p, |previous.chunks|);
            var data := Incremental(cfg, previous, corpus, forced);
            var after := ChunksOf(data.chunks, p, |data.chunks|);
            && version > (if p in previous.docsById then previous.docsById[p].version else 0)
            && (after == before || after == AsIndexed(before) + DocChunks(cfg, corpus[k], first, version))
  {
    var p, files, latest := corpus[k].path, ChangedFiles(previous, corpus, forced), PreviousLatest(previous);
    IncrementalIsVersioned(cfg, was, previous, corpus, forced);
    PreviousLatestIs(cfg, was, previous);
    FileChanges(previous, corpus, forced, k);
    PathsHave(corpus, |corpus|, p);
    first, version := 0, NextVersion(latest, p);
    if IsChanged(corpus[k], latest, forced) {
      first := ChangedRecords(cfg, previous, corpus, forced, k);
    } else {
      UnchangedKeepsHistory(cfg, was, previous, corpus, forced, k);
    }
  }

  lemma SameOldVersions(before: seq<Chunk>, more: seq<Chunk>, v: nat)
    requires NoneOf(more, v, |more|)
    ensures var after := AsIndexed(before) + more;
            AsIndexed(OfVersion(after, v, |after|)) == AsIndexed(OfVersion(before, v, |before|))
  {
    var retired, mine := AsIndexed(before), OfVersion(before, v, |before|);
    OtherVersionAppended(retired, more, v, |more|);
    RetiredOfVersion(before, v, |before|);
    RetiredTwice(mine, |mine|);
  }

  lemma {:induction false} MadeAreNoneOf(cfg: Settings, f: File, pairs: seq<Pair>, first: nat, version: nat, v: nat, n: nat)
    requires n <= |pairs| && v != version
    ensures NoneOf(MakeChunks(cfg, f, pairs, first, version, n), v, n)
  {
    if n > 0 {
      MadeAreNoneOf(cfg, f, pairs, first, version, v, n - 1);
      NoneOfPrefix(MakeChunks(cfg, f, pairs, first, version, n - 1), MakeChunk(cfg, f, pairs[n - 1], first + n - 1, version), v, n - 1);
    }
  }

  lemma {:induction false} NoneOfPrefix(chunks: seq<Chunk>, c: Chunk, v: nat, n: nat)
    requires n <= |chunks|
    ensures NoneOf(chunks + [c], v, n) == NoneOf(chunks, v, n)
  {
    if n > 0 {
      NoneOfPrefix(chunks, c, v, n - 1);
    }
  }

  /** An indexed version of a document can be retrieved unchanged after any further step that keeps the document. */
  lemma PinnedSurvivesStep(cfg: Settings, was: seq<File>, previous: IndexData, corpus: seq<File>, forced: set<string>, k: nat, v: nat,
                           data: IndexData)
    requires IsIndexOf(cfg, was, previous) && DistinctPaths(corpus) && k < |corpus|
    requires corpus[k].path in previous.docsById && v <= previous.docsById[corpus[k].path].version
    requires data == Incremental(cfg, previous, corpus, forced)
    ensures AsIndexed(Pinned(data, corpus[k].path, v)) == AsIndexed(Pinned(previous, corpus[k].path, v))
  {
    var p := corpus[k].path;
    var before, after := ChunksOf(previous.chunks, p, |previous.chunks|), ChunksOf(data.chunks, p, |data.chunks|);
    var first, version := ChunksAfterStep(cfg, was, previous, corpus, forced, k);
    PinnedOf(previous, p, v);
    PinnedOf(data, p, v);
    if after != before {
      var pairs := cfg.split(corpus[k].text);
      MadeAreNoneOf(cfg, corpus[k], pairs, first, version, v, |pairs|);
      SameOldVersions(before, DocChunks(cfg, corpus[k], first, version), v);
    }
  }

  lemma VersionAfter(cfg: Settings, was: seq<File>, previous: IndexData, corpus: seq<File>, forced: set<string>, k: nat)
    requires IsIndexOf(cfg, was, previous) && DistinctPaths(corpus) && k < |corpus|
    requires corpus[k].path in previous.docsById
    ensures var p := corpus[k].path;
            var docs := AllDocsOf(Versioned(cfg, previous, corpus, forced), p);
            && docs != []
            && docs[|docs| - 1].version == previous.docsById[p].version
                                          + if IsChanged(corpus[k], previous.docsById, forced) then 1 else 0
  {
    var p := corpus[k].path;
    PreviousLatestIs(cfg, was, previous);
    if IsChanged(corpus[k], PreviousLatest(previous), forced) {
      var _ := ChangedRecords(cfg, previous, corpus, forced, k);
    } else {
      UnchangedKeepsHistory(cfg, was, previous, corpus, forced, k);
      if p !in Paths(was, |was|) {
        NoTraceIs(cfg, was, previous, p);
      }
      var _ := IndexedBefore(cfg, was, previous, p);
    }
  }

  /** Versions only grow while a document stays. */
  lemma VersionGrows(cfg: Settings, was: seq<File>, previous: IndexData, corpus: seq<File>, forced: set<string>, k: nat)
    requires IsIndexOf(cfg, was, previous) && DistinctPaths(corpus) && k < |corpus|
    requires corpus[k].path in previous.docsById
    ensures var p, data := corpus[k].path, Incremental(cfg, previous, corpus, forced);
            && p in data.docsById
            && data.docsById[p].version == previous.docsById[p].version
                                           + if IsChanged(corpus[k], previous.docsById, forced) then 1 else 0
  {
    var data := Incremental(cfg, previous, corpus, forced);
    VersionAfter(cfg, was, previous, corpus, forced, k);
    IncrementalIsVersioned(cfg, was, previous, corpus, forced);
    StepKeepsIndex(cfg, was, previous, corpus, forced);
    IndexHasOneLatest(cfg, corpus, data, k);
  }

  lemma StepKeepsPinned(cfg: Settings, was: seq<File>, previous: IndexData, corpus: seq<File>, forced: set<string>, p: string, v: nat,
                        data: IndexData)
    requires IsIndexOf(cfg, was, previous) && DistinctPaths(corpus) && p in Paths(corpus, |corpus|)
    requires p in previous.docsById && v <= previous.docsById[p].version
    requires data == Incremental(cfg, previous, corpus, forced)
    ensures p in data.docsById && v <= data.docsById[p].version
    ensures AsIndexed(Pinned(data, p, v)) == AsIndexed(Pinned(previous, p, v))
  {
    PathsHave(corpus, |corpus|, p);
    var k :| 0 <= k < |corpus| && corpus[k].path == p;
    PinnedSurvivesStep(cfg, was, previous, corpus, forced, k, v, data);
    VersionGrows(cfg, was, previous, corpus, forced, k);
  }

  /** The index after the first `n` further runs. */
  function RunFrom(cfg: Settings, start: IndexData, steps: seq<Step>, n: nat): IndexData
    requires n <= |steps|
  {
    if n == 0 then start
    else Incremental(cfg, RunFrom(cfg, start, steps, n - 1), steps[n - 1].corpus, steps[n - 1].forced)
  }

  lemma {:induction false} RunFromKeepsIndex(cfg: Settings, corpus: seq<File>, start: IndexData, steps: seq<Step>, n: nat)
    requires n <= |steps| && IsIndexOf(cfg, corpus, start) && DistinctSteps(steps, n)
    ensures IsIndexOf(cfg, CorpusAfter(corpus, steps, n), RunFrom(cfg, start, steps, n))
  {
    if n > 0 {
      RunFromKeepsIndex(cfg, corpus, start, steps, n - 1);
      var was, previous := CorpusAfter(corpus, steps, n - 1), RunFrom(cfg, start, steps, n - 1);
      assert IsIndexOf(cfg, was, previous) && DistinctPaths(steps[n - 1].corpus);
      StepKeepsIndex(cfg, was, previous, steps[n - 1].corpus, steps[n - 1].forced);
    }
  }

  predicate StaysIn(steps: seq<Step>, n: nat, p: string)
    requires n <= |steps|
  {
    n == 0 || (StaysIn(steps, n - 1, p) && p in Paths(steps[n - 1].corpus, |steps[n - 1].corpus|))
  }

  /** While a document stays in the corpus, every version it was ever indexed in stays retrievable,
      as it was indexed, over any number of further runs. */
  lemma {:induction false} PinnedVersionsSurvive(cfg: Settings, corpus: seq<File>, start: IndexData, steps: seq<Step>, n: nat,
                                                 p: string, v: nat)
    requires n <= |steps| && IsIndexOf(cfg, corpus, start) && DistinctSteps(steps, n) && StaysIn(steps, n, p)
    requires p in start.docsById && v <= start.docsById[p].version
    ensures var data := RunFrom(cfg, start, steps, n);
            && p in data.docsById && v <= data.docsById[p].version
            && AsIndexed(Pinned(data, p, v)) == AsIndexed(Pinned(start, p, v))
  {
    if n > 0 {
      PinnedVersionsSurvive(cfg, corpus, start, steps, n - 1, p, v);
      RunFromKeepsIndex(cfg, corpus, start, steps, n - 1);
      StepKeepsPinned(cfg, CorpusAfter(corpus, steps, n - 1), RunFrom(cfg, start, steps, n - 1), steps[n - 1].corpus,
                      steps[n - 1].forced, p, v, RunFrom(cfg, start, steps, n));
    }
  }
}
