/** `rag_ingest_index`: chunk and document records, and the full build. */
module Index {
  import opened Pairs

  /** The chunk settings that decide what a document is indexed as; `split` is the chunk strategy. */
  datatype Settings = Settings(chunkSize: int, overlap: int, lateChunking: bool, contextualPrefix: bool,
                               split: string -> seq<Pair>)

  /** The one strategy the configuration accepts: a document is split by `section_pairs`. */
  ghost predicate StructureAware(cfg: Settings) {
    forall text {:trigger SectionPairs(text, cfg.chunkSize, cfg.overlap)} ::
      cfg.split(text) == SectionPairs(text, cfg.chunkSize, cfg.overlap)
  }

  function StructureAwareSettings(chunkSize: int, overlap: int, lateChunking: bool, contextualPrefix: bool): (cfg: Settings)
    ensures StructureAware(cfg) && cfg.chunkSize == chunkSize && cfg.overlap == overlap
  {
    Settings(chunkSize, overlap, lateChunking, contextualPrefix, text => SectionPairs(text, chunkSize, overlap))
  }

  datatype File = File(path: string, text: string)

  /** A content hash: a hash is taken to tell different texts apart and never to be empty. */
  datatype Digest = NoDigest | Sha(text: string)

  /** The contextual prefix of a passage, which names the document, the heading and the ordinal. */
  datatype Prefix = NoPrefix | Context(path: string, heading: string, ordinal: nat)

  /** The hash of what is embedded for a chunk: its prefix, if any, and a text. */
  datatype Embedding = NoEmbedding | Embedded(prefix: Prefix, text: string)

  /** The chunk id hashes the path, the document hash, the version, the ordinal and the text. */
  datatype ChunkId = ChunkId(path: string, docHash: Digest, version: nat, ordinal: nat, text: string)

  datatype Chunk = Chunk(id: ChunkId, docId: string, docHash: Digest, version: nat, isLatest: bool, ordinal: nat,
                         heading: string, text: string, textHash: Digest, embeddingInput: Embedding, prefix: Prefix)

  datatype Doc = Doc(docId: string, hash: Digest, version: nat, isLatest: bool, chunkCount: nat)

  datatype Latest = Latest(version: nat, hash: Digest, versions: set<nat>)

  datatype IndexData = IndexData(docs: seq<Doc>, chunks: seq<Chunk>, docsById: map<string, Latest>)

  /** The document and chunk lists while an index is being built. */
  datatype Lists = Lists(docs: seq<Doc>, chunks: seq<Chunk>)

  /** `make_chunk` for a new, hence latest, record. */
  function MakeChunk(cfg: Settings, f: File, pair: Pair, ordinal: nat, version: nat): Chunk {
    var prefix := if cfg.contextualPrefix then Context(f.path, pair.heading, ordinal) else NoPrefix;
    Chunk(ChunkId(f.path, Sha(f.text), version, ordinal, pair.text), f.path, Sha(f.text), version, true, ordinal,
          pair.heading, pair.text, Sha(pair.text),
          if cfg.lateChunking then Embedded(NoPrefix, f.text) else Embedded(prefix, pair.text), prefix)
  }

  function MakeChunks(cfg: Settings, f: File, pairs: seq<Pair>, first: nat, version: nat, n: nat): (chunks: seq<Chunk>)
    requires n <= |pairs|
    ensures |chunks| == n
  {
    if n == 0 then []
    else MakeChunks(cfg, f, pairs, first, version, n - 1) + [MakeChunk(cfg, f, pairs[n - 1], first + n - 1, version)]
  }

  /** The chunks of `chunk_doc`. */
  function DocChunks(cfg: Settings, f: File, first: nat, version: nat): seq<Chunk> {
    var pairs := cfg.split(f.text);
    MakeChunks(cfg, f, pairs, first, version, |pairs|)
  }

  /** The document record of `chunk_doc`. */
  function DocRecord(cfg: Settings, f: File, version: nat): Doc {
    Doc(f.path, Sha(f.text), version, true, |cfg.split(f.text)|)
  }

  function NextVersion(latest: map<string, Latest>, path: string): nat {
    (if path in latest then latest[path].version else 0) + 1
  }

  /** Appends the records of one file. */
  function AddFile(cfg: Settings, before: Lists, f: File, version: nat): Lists {
    Lists(before.docs + [DocRecord(cfg, f, version)],
          before.chunks + DocChunks(cfg, f, |before.chunks| + 1, version))
  }

  /** Appends the records of the first `n` files, each one version past its latest. */
  function AddFiles(cfg: Settings, base: Lists, files: seq<File>, latest: map<string, Latest>, n: nat): Lists
    requires n <= |files|
  {
    if n == 0 then base
    else AddFile(cfg, AddFiles(cfg, base, files, latest, n - 1), files[n - 1], NextVersion(latest, files[n - 1].path))
  }

  function AddDoc(grouped: map<string, Latest>, doc: Doc): map<string, Latest> {
    if doc.docId !in grouped then grouped[doc.docId := Latest(doc.version, doc.hash, {doc.version})]
    else
      var current := grouped[doc.docId];
      var versions := current.versions + {doc.version};
      if doc.version > current.version then grouped[doc.docId := Latest(doc.version, doc.hash, versions)]
      else grouped[doc.docId := current.(versions := versions)]
  }

  /** `_docs_by_id`; the sorted version list is kept as a set. */
  function DocsById(docs: seq<Doc>, n: nat): map<string, Latest>
    requires n <= |docs|
  {
    if n == 0 then map[] else AddDoc(DocsById(docs, n - 1), docs[n - 1])
  }

  function Finish(lists: Lists): IndexData {
    IndexData(lists.docs, lists.chunks, DocsById(lists.docs, |lists.docs|))
  }

  /** `build_index` */
  function FullBuild(cfg: Settings, corpus: seq<File>): IndexData {
    Finish(AddFiles(cfg, Lists([], []), corpus, map[], |corpus|))
  }

  /** The versions of a document among the first `n` records. */
  function Versions(docs: seq<Doc>, n: nat, p: string): set<nat>
    requires n <= |docs|
  {
    if n == 0 then {}
    else if docs[n - 1].docId == p then Versions(docs, n - 1, p) + {docs[n - 1].version}
    else Versions(docs, n - 1, p)
  }

  /** The hash of the first record of a document that carries version `v`. */
  function FirstHash(docs: seq<Doc>, n: nat, p: string, v: nat): Digest
    requires n <= |docs|
  {
    if n == 0 then NoDigest
    else if v !in Versions(docs, n - 1, p) && docs[n - 1].docId == p && docs[n - 1].version == v then docs[n - 1].hash
    else FirstHash(docs, n - 1, p, v)
  }

  /** A document's entry: the set of its versions, the greatest of them, and the hash of the
      first record that carries it; no entry exactly when there is no record. */
  ghost predicate IsGroup(docs: seq<Doc>, n: nat, p: string, grouped: map<string, Latest>)
    requires n <= |docs|
  {
    var versions := Versions(docs, n, p);
    && (p in grouped <==> versions != {})
    && (p in grouped ==>
          && grouped[p].versions == versions
          && grouped[p].version in versions
          && (forall v :: v in versions ==> v <= grouped[p].version)
          && grouped[p].hash == FirstHash(docs, n, p, grouped[p].version))
  }

  /** `_docs_by_id` in closed form, whatever the records. */
  lemma {:induction false} DocsByIdGroups(docs: seq<Doc>, n: nat, p: string)
    requires n <= |docs|
    ensures IsGroup(docs, n, p, DocsById(docs, n))
  {
    if n > 0 {
      DocsByIdGroups(docs, n - 1, p);
    }
  }

  /** `_docs_by_id`, as the loop the script runs. */
  method GroupDocs(docs: seq<Doc>) returns (grouped: map<string, Latest>)
    ensures grouped == DocsById(docs, |docs|)
  {
    grouped := map[];
    for i := 0 to |docs|
      invariant grouped == DocsById(docs, i)
    {
      var doc := docs[i];
      var earlier: set<nat> := if doc.docId in grouped then grouped[doc.docId].versions else {};
      assert earlier + {doc.version} == if doc.docId in grouped then earlier + {doc.version} else {doc.version};
      if doc.docId !in grouped || doc.version > grouped[doc.docId].version {
        grouped := grouped[doc.docId := Latest(doc.version, doc.hash, earlier + {doc.version})];
      } else {
        grouped := grouped[doc.docId := grouped[doc.docId].(versions := earlier + {doc.version})];
      }
    }
  }

  /** `chunk_doc` */
  method ChunkDoc(cfg: Settings, f: File, first: nat, version: nat) returns (doc: Doc, chunks: seq<Chunk>)
    requires StructureAware(cfg)
    ensures doc == DocRecord(cfg, f, version) && chunks == DocChunks(cfg, f, first, version)
  {
    var pairs := ReadPairs(f.text, cfg.chunkSize, cfg.overlap);
    chunks := NumberChunks(cfg, f, pairs, first, version);
    doc := Doc(f.path, Sha(f.text), version, true, |chunks|);
  }

  method NumberChunks(cfg: Settings, f: File, pairs: seq<Pair>, first: nat, version: nat) returns (chunks: seq<Chunk>)
    ensures chunks == MakeChunks(cfg, f, pairs, first, version, |pairs|)
  {
    chunks := [];
    for i := 0 to |pairs|
      invariant chunks == MakeChunks(cfg, f, pairs, first, version, i)
    {
      chunks := chunks + [MakeChunk(cfg, f, pairs[i], first + i, version)];
    }
  }

  /** An index under construction: the lists its build appends to, and its grouping. */
  class Store {
    var docs: seq<Doc>
    var chunks: seq<Chunk>
    var docsById: map<string, Latest>

    constructor ()
      ensures docs == [] && chunks == [] && docsById == map[]
    {
      docs, chunks, docsById := [], [], map[];
    }

    ghost function Data(): IndexData
      reads this
    {
      IndexData(docs, chunks, docsById)
    }

    /** `chunk_doc`, then the appends of its records to the lists. */
    method Add(cfg: Settings, f: File, version: nat)
      requires StructureAware(cfg)
      modifies this
      ensures Lists(docs, chunks) == AddFile(cfg, old(Lists(docs, chunks)), f, version)
      ensures docsById == old(docsById)
    {
      var doc, added := ChunkDoc(cfg, f, |chunks| + 1, version);
      docs := docs + [doc];
      chunks := chunks + added;
    }

    /** `_with_docs_by_id` */
    method Group()
      modifies this
      ensures Data() == Finish(Lists(old(docs), old(chunks)))
    {
      docsById := GroupDocs(docs);
    }

    /** The loop over the corpus in `build_index`. */
    method AddCorpus(cfg: Settings, corpus: seq<File>)
      requires StructureAware(cfg)
      modifies this
      ensures Lists(docs, chunks) == AddFiles(cfg, old(Lists(docs, chunks)), corpus, map[], |corpus|)
    {
      for i := 0 to |corpus|
        invariant Lists(docs, chunks) == AddFiles(cfg, old(Lists(docs, chunks)), corpus, map[], i)
      {
        Add(cfg, corpus[i], 1);
      }
    }
  }

  /** `build_index` */
  method BuildIndex(cfg: Settings, corpus: seq<File>) returns (store: Store)
    requires StructureAware(cfg)
    ensures fresh(store) && store.Data() == FullBuild(cfg, corpus)
  {
    store := new Store();
    store.AddCorpus(cfg, corpus);
    store.Group();
  }
}
