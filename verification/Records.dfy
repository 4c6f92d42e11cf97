/** What the chunks and records of an index carry, and which chunks are candidates. */
module Records {
  import opened Decimal
  import opened Pairs
  import opened Index
  import opened Freshness
  import opened History
  import opened Agreement

  // ----- chunks -----

  /** The columns of chunk `i` of a document version whose first chunk has ordinal `first`. */
  ghost predicate Shows(cfg: Settings, f: File, pairs: seq<Pair>, first: nat, version: nat, i: nat, c: Chunk)
    requires i < |pairs|
  {
    && c.docId == f.path && c.docHash == Sha(f.text) && c.version == version && c.ordinal == first + i
    && c.heading == pairs[i].heading && c.text == pairs[i].text && c.textHash == Sha(pairs[i].text)
    && c.id == ChunkId(f.path, Sha(f.text), version, first + i, pairs[i].text)
    && c.prefix == (if cfg.contextualPrefix then Context(f.path, pairs[i].heading, first + i) else NoPrefix)
    && c.embeddingInput
       == (if cfg.lateChunking then Embedded(NoPrefix, f.text)
           else if cfg.contextualPrefix then Embedded(Context(f.path, pairs[i].heading, first + i), pairs[i].text)
           else Embedded(NoPrefix, pairs[i].text))
  }

  lemma {:induction false} MadeShows(cfg: Settings, f: File, pairs: seq<Pair>, first: nat, version: nat, n: nat, i: nat)
    requires i < n <= |pairs|
    ensures Shows(cfg, f, pairs, first, version, i, MakeChunks(cfg, f, pairs, first, version, n)[i])
  {
    if i < n - 1 {
      MadeShows(cfg, f, pairs, first, version, n - 1, i);
    }
  }

  lemma VersionShows(cfg: Settings, f: File, pairs: seq<Pair>, version: nat, mine: seq<Chunk>, latest: seq<Chunk>)
    returns (first: nat)
    requires ChunkHistory(cfg, f, version, mine) && cfg.split(f.text) == pairs && latest == LatestOf(mine, |mine|)
    ensures |latest| == |pairs|
    ensures forall i :: 0 <= i < |pairs| ==> Shows(cfg, f, pairs, first, version, i, latest[i])
  {
    first := LatestOfChunkHistory(cfg, f, version, mine);
    forall i | 0 <= i < |pairs| ensures Shows(cfg, f, pairs, first, version, i, latest[i]) {
      MadeShows(cfg, f, pairs, first, version, |pairs|, i);
    }
  }

  lemma RecordShows(cfg: Settings, f: File, pairs: seq<Pair>, docs: seq<Doc>, mine: seq<Doc>, version: nat)
    requires mine == DocsOf(docs, f.path, |docs|) && DocHistory(cfg, f, mine) && version == mine[|mine| - 1].version
    requires cfg.split(f.text) == pairs
    ensures Doc(f.path, Sha(f.text), version, true, |pairs|) in docs
  {
    OfIsIn(docs, f.path, |docs|, |mine| - 1);
  }

  lemma HistoryOf(cfg: Settings, corpus: seq<File>, data: IndexData, k: nat, f: File, docs: seq<Doc>, mine: seq<Chunk>)
    requires IsIndexOf(cfg, corpus, data) && k < |corpus| && f == corpus[k]
    requires docs == DocsOf(data.docs, f.path, |data.docs|) && mine == ChunksOf(data.chunks, f.path, |data.chunks|)
    ensures IsHistory(cfg, f, docs, mine)
  {
    assert HasHistory(cfg, Lists(data.docs, data.chunks), f);
  }

  lemma SplitsInto(cfg: Settings, text: string, pairs: seq<Pair>)
    requires StructureAware(cfg) && pairs == SectionPairs(text, cfg.chunkSize, cfg.overlap)
    ensures cfg.split(text) == pairs
  {
  }

  /** In every index of a corpus the latest chunks of a document are the passages of its text, in order, with
      consecutive ordinals; its record counts them. */
  lemma LatestChunksShow(cfg: Settings, corpus: seq<File>, data: IndexData, k: nat, pairs: seq<Pair>, mine: seq<Chunk>,
                         latest: seq<Chunk>)
    returns (first: nat, version: nat)
    requires StructureAware(cfg) && IsIndexOf(cfg, corpus, data) && k < |corpus|
    requires pairs == SectionPairs(corpus[k].text, cfg.chunkSize, cfg.overlap)
    requires mine == ChunksOf(data.chunks, corpus[k].path, |data.chunks|) && latest == LatestOf(mine, |mine|)
    ensures |latest| == |pairs|
    ensures forall i :: 0 <= i < |pairs| ==> Shows(cfg, corpus[k], pairs, first, version, i, latest[i])
    ensures Doc(corpus[k].path, Sha(corpus[k].text), version, true, |pairs|) in data.docs
  {
    var f := corpus[k];
    var docs := DocsOf(data.docs, f.path, |data.docs|);
    HistoryOf(cfg, corpus, data, k, f, docs, mine);
    SplitsInto(cfg, f.text, pairs);
    version := docs[|docs| - 1].version;
    first := VersionShows(cfg, f, pairs, version, mine, latest);
    RecordShows(cfg, f, pairs, data.docs, docs, version);
  }

  lemma {:induction false} OfIsIn(docs: seq<Doc>, p: string, n: nat, i: nat)
    requires n <= |docs| && i < |DocsOf(docs, p, n)|
    ensures DocsOf(docs, p, n)[i] in docs
  {
    if i < |DocsOf(docs, p, n - 1)| {
      OfIsIn(docs, p, n - 1, i);
    }
  }

  // ----- candidates -----

  /** A filter accepts the version it names and, of anything else, only the empty value. */
  ghost predicate Accepts(filters: map<string, string>, version: nat) {
    forall key :: key in filters ==> filters[key] == if key == "doc_version" then Print(version) else ""
  }

  lemma MatchesIff(c: Chunk, filters: map<string, string>)
    ensures Matches(c, filters) <==> Accepts(filters, c.version)
  {
    assert forall key :: key in Metadata(c) <==> key == "doc_version";
  }

  lemma {:induction false} CandidatesAre(data: IndexData, filters: map<string, string>, n: nat, c: Chunk)
    requires n <= |data.chunks|
    ensures c in Candidates(data, filters, n) <==> IsOffered(data, filters, c) && exists i :: 0 <= i < n && data.chunks[i] == c
  {
    if n > 0 {
      CandidatesAre(data, filters, n - 1, c);
    }
  }

  /** Candidates are the chunks the filters accept; without a version filter only latest ones, unless the index
      groups no document. */
  lemma CandidateIff(data: IndexData, filters: map<string, string>, c: Chunk)
    ensures c in Candidates(data, filters, |data.chunks|) <==>
              && c in data.chunks && Accepts(filters, c.version)
              && (c.isLatest || "doc_version" in filters || data.docsById == map[])
  {
    CandidatesAre(data, filters, |data.chunks|, c);
    MatchesIff(c, filters);
  }
}
