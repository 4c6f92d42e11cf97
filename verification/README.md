# Models of the retrieval index, its ranking, the security-artifact validator and the decision kernels

This project models three engines of the repository and six small decision kernels, and proves
what each of them promises. `dafny verify dfyconfig.toml` checks everything.

**The retrieval index** (`Text`, `Spans`, `Markdown`, `Blocks`, `Chunking`, `Pairs`, `Fences`,
`FencedChunks`, `TornFence`, `Decimal`, `Index`, `Freshness`, `History`, `Agreement`, `Reports`,
`Ordinals`, `EndToEnd`; `LineRules` and `Records` state lines, blocks and chunk columns without naming the
functions that compute them; `Samples` holds a short text for counterexamples). A corpus is a list of paths and
texts. Two line machines cut a text into sections and a section into blocks, both keeping track of
code fences; a greedy chunker with overlap packs the blocks; passages of at most one visible line are
dropped. `build_index` numbers the passages of a whole corpus. `build_incremental_index` carries a
previous index forward, retires what changed, appends new versions and forgets deleted documents. The
main result is that after any history of edits, additions, deletions, re-additions and forced
reindexes, what retrieval offers by default equals what a full build of the current corpus offers,
and that a closed fenced block of a current document is offered whole, provided that stripping its
section does not turn the section's first visible line into a fence. Where it does, every closed fenced
block of that section falls into more than one of the chunker's blocks, and whether one chunk still
holds all its lines depends on the chunk size; at size one none does. Settings stay fixed over a
history, since the code never compares old and new settings. A hash is a constructor applied to the
hashed text, so it tells texts apart and is never empty.

**Ranking** (`Ordering`, `Hits`, `Fusion`, `Retrieval`, `Metrics`, `Variants`, `Renaming`,
`RankedScores`, `SameAnswers`; `ShownScores` and `MetricValues` give the numbers shown). A Python dictionary of scores is a sequence of entries in insertion order. The two rankers' scores are inputs; top-k,
reciprocal rank fusion, reranking, the result rows, the four metrics and the merge of query variants
are modelled over reals. The logarithmic discount is any positive falling sequence and the gain any
strictly growing map that is zero at zero. The pipeline does not look into chunk ids: renaming chunks
renames the answer as long as no scores tie. So, for scores that depend on the passage, the document and
all that is offered, retrieval over an incrementally built index answers like retrieval over a rebuilt
one; where scores tie, ids decide the order, and what still agrees is the score at every rank of the two
lists.

**The security-artifact validator** (`Findings`, `Artifact`, `Checks`, `Issues`, `Ownership`,
`Dependencies`, `Validator`, `Accepted`, `Documents`, `Rules`, `Verdict`). A parsed document is a JSON value. Each phase is a method
whose contract says exactly which findings it adds (as a set of messages), and when Python would raise
`TypeError` (an unhashable or non-iterable value). The depth-first search for cycles is a recursive
method over `visiting` and `visited` sets. No findings means the issues can be ordered, gates are
symmetric, blocked work is kept out of the queue, every threat is answered by an owned and tested
control, every control whose failure loses or discloses data is owned with authority by the database or
the platform, and every atomic group belongs to one issue. `Rules` states every rule over the document
itself, without the tables the phases build, and `Verdict` proves that the findings are exactly the
broken rules.

**Decision kernels** (`Packs`, `Ledger`, `Timeout`, `Watchdog`, `ScaleUp`, `StackConfidence`;
`Basics` holds what several modules share): the closure of baseline packs, the ledger merge that
keeps manual edits, the printer and inspector of `timeout` commands, the watchdog sweep, per-unit
scale-up and language confidence.

Where the code and its own comments disagree, or a natural reading of the code is false, the model
follows the code:

- The doc comment of `inspect_timeout_command` (crates/autospec-core/src/agent_watchdog.rs:129-133)
  says that `--kill-after` may be separated by a space. The code then takes the grace for the limit and
  reports a bare timeout: `Timeout.SpacedLongForm` gives the exact condition.
- `Escalation::new` accepts a grace below one second, but rendering prints whole seconds, so such a
  grace is printed as `0`: `Timeout.RoundTripIffWhole`.
- `markdown_sections` strips a section before the chunker reads it. If the first visible line of the
  preamble is an indented fence, stripping makes it a fence and the chunker's flag is inverted from
  there on: `Fences.ChunkerFlagAgrees` gives the exact condition, and sections opened by a heading are
  never affected. `FencedChunks.FencedCodeIsWholeIff` draws the consequence for code: a closed fenced
  block lies whole in one block of its section iff the first visible line keeps its meaning.
  `FencedChunks.WholeAtEverySizeIff` says the same of chunks: one chunk holds the block at every chunk
  size iff that line keeps its meaning. `TornFence` is a document of four lines of which no passage holds
  the fenced block at chunk size 8 (`BlockIsNotIndexed`), while one does at 900 (`BlockIsRejoined`).
- In `split_section` the comparison of the stripped chunk with the stripped heading never keeps a grown
  chunk from being cut: `Chunking.GrownChunkDiffers`.
- A chunk's ordinal is its place only until a document is dropped. `Ordinals.OrdinalsDistinctIff` gives
  the exact condition for distinct ordinals after a step, `Ordinals.RunIsNumbered` the histories in
  which they are places, and `Ordinals.OrdinalsCanRepeat` three documents whose deletion and addition
  repeats an ordinal under any settings. Identifiers never repeat.
- The chunk counts of the incremental report can miss chunks. `Reports.AddsUpIff`: they add up iff the
  previous index lists a document or the documents it names with their present text have no passages.
  So they do after every step from an index that was built (`Reports.ReachableAddsUp`);
  `Reports.NamedWithoutDocs` is an index that names a document and lists none.
- `final_n` is used unchecked, and with a negative one nDCG can exceed one: `Metrics.NdcgBoundedIff`.
- A cycle finding lists the repeated issue twice at its end: `Dependencies.ReportIsWalkIff`, and for two
  issues that depend on each other `Dependencies.MutualReportIsNoWalk`.

## Model

| member | source | states |
|---|---|---|
| Markdown.SectionsAreTheSectioning | scripts/rag_ingest_markdown.py:16-29 | the lines grouped before stripping concatenate to the input; groups after the first begin at headings outside fences and nowhere else; no other grouping does this |
| Markdown.MarkdownSections | scripts/rag_ingest_markdown.py:16-29 | the line loop yields those sections, stripped and titled |
| LineRules.LinesWithEnds | scripts/rag_ingest_markdown.py:18 | a text is its lines, each followed by one line break or by a carriage return and line feed together; no line holds a break, and only the last may lack one |
| LineRules.InFenceIff | scripts/rag_ingest_markdown.py:19-20 | the fence flag is set iff an odd number of lines so far start with three backticks |
| LineRules.SectionShows | scripts/rag_ingest_markdown.py:12-29 | a section's text is its lines without the whitespace at both ends, and one line feed; its heading is the title of its first line if that is a heading outside fences, else `Document` |
| Markdown.IsHeadingIff | scripts/rag_ingest_markdown.py:3 | a heading starts with one to six hashes and whitespace |
| Markdown.HeadingTitleIs | scripts/rag_ingest_markdown.py:7-9 | its title is what stands between the whitespace behind the hashes and that at the end of the line |
| Blocks.BlocksAreTheBlocking | scripts/rag_ingest_blocks.py:9-19 | the blocks are the texts of the only division of the section into fenced and paragraph runs that skips blank separators |
| Blocks.ReadBlocks | scripts/rag_ingest_blocks.py:9-19 | the line loop yields those blocks |
| Blocks.RunInOneBlock | scripts/rag_ingest_blocks.py:9-19 | every closed fenced block lies in a single block and ends it |
| Blocks.SectionBlocksShow | scripts/rag_ingest_blocks.py:4-19 | every block ends with a newline, and what stands before it starts and ends with a visible character |
| LineRules.KindIff | scripts/rag_ingest_blocks.py:11-16 | a blank line with an even number of fence lines so far separates blocks; a fence line that makes that number even closes one |
| LineRules.BlockShows | scripts/rag_ingest_blocks.py:4-6 | a block is its lines without the whitespace at both ends, and one line feed |
| Chunking.SplitKeepsBlocks | scripts/rag_ingest_blocks.py:22-38 | body blocks stay whole and in order, each chunk starts with the heading, there are no more chunks than blocks, sizes are bounded, and the greedy cut is the only one |
| Chunking.Split | scripts/rag_ingest_blocks.py:22-38 | the block loop yields those chunks, also for no blocks and for a bare heading |
| Chunking.ChunkCarriesOver | scripts/rag_ingest_blocks.py:35-37 | with a positive overlap every later chunk is the heading, then the text carried over and a line feed, then whole blocks, where nothing is carried if that text is empty or occurs in the heading; the text carried is a suffix of the chunk before, within its last `overlap` characters, that starts visibly with only whitespace before it |
| Chunking.CarriedNotLonger | scripts/rag_ingest_blocks.py:35 | only one text can be so carried |
| LineRules.FirstChunkShows | scripts/rag_ingest_blocks.py:26-36 | the first chunk is the heading and whole blocks |
| Chunking.GrownChunkDiffers | scripts/rag_ingest_blocks.py:32 | a heading with a visible block after it never strips to the heading |
| Pairs.PairsAreKeptParts | scripts/rag_ingest_index.py:36-42 | a document is indexed by exactly the section parts not dropped; under a heading a part is dropped iff it shows at most one line |
| Pairs.PairsInOrder | scripts/rag_ingest_index.py:36-42 | the pairs are those parts, each once, by section and then by place in the section |
| LineRules.DroppedIff | scripts/rag_ingest_index.py:40-41 | a part is dropped iff it has a heading and at most one line that shows something |
| Pairs.ReadPairs | scripts/rag_ingest_index.py:36-42 | the nested loops yield those pairs in order |
| Fences.ChunkerFlagAgrees | scripts/rag_ingest_blocks.py:12-13 | the chunker's fence flag agrees with the document's on every line of a section iff stripping keeps the meaning of its first line |
| Fences.HeadedSectionAgrees | scripts/rag_ingest_markdown.py:19-24 | for a section opened by a heading the flags always agree |
| Fences.SectionDoesNotCutRun | scripts/rag_ingest_markdown.py:19-24 | a section boundary never falls inside a closed fenced block |
| Fences.FencedCodeIsIndexed | scripts/rag_ingest_index.py:36-42 | a closed fenced block of a document lies whole in one indexed passage under its section's heading, if the first visible line of that section keeps its meaning when the section is stripped |
| FencedChunks.FencedCodeIsWholeIff | scripts/rag_ingest_blocks.py:9-19 | a closed fenced block lies whole in one block of its section iff the first visible line of the section keeps its meaning when the section is stripped |
| FencedChunks.WholeAtEverySizeIff | scripts/rag_ingest_blocks.py:9-38 | one chunk holds every line of a closed fenced block at every chunk size and overlap iff the first visible line of the section keeps its meaning when the section is stripped; otherwise none does at chunk size one, whatever the overlap |
| FencedChunks.NoChunkHoldsPart | scripts/rag_ingest_blocks.py:22-38 | without overlap every chunk is the heading and whole blocks, and a fenced block of the section is in exactly one chunk, or in the heading's block that all chunks repeat whole |
| TornFence.BlockIsNotIndexed | scripts/rag_ingest_index.py:36-42 | of a document with an indented fence before a closed fenced block no passage holds the block, at chunk size 8 without overlap |
| TornFence.BlockIsRejoined | scripts/rag_ingest_index.py:36-42 | of the same document one passage holds the block at chunk size 900 |
| Decimal.PrintReadsBack | crates/autospec-core/src/agent_watchdog.rs:182-196 | printed decimal numbers read back as themselves |
| Index.DocsByIdGroups | scripts/rag_ingest_index.py:54-69 | each document's entry has all its versions, the greatest of them and the hash of its first record with that version |
| Index.GroupDocs | scripts/rag_ingest_index.py:54-69 | the loop computes that grouping |
| Index.ChunkDoc | scripts/rag_ingest_index.py:45-51 | the record and the consecutively numbered chunks of one document |
| Records.LatestChunksShow | scripts/rag_ingest_index.py:14-51 | in every reachable index the latest chunks of a document are the passages of its text, in order, with consecutive ordinals and every column as given: hashes, identifier, contextual prefix, and as embedding input the whole document under late chunking and else the prefixed passage; its record counts them |
| Index.Store.Add | scripts/rag_ingest_index.py:97-100 | appends one document's record and chunks, numbered after all present ones |
| Index.BuildIndex | scripts/rag_ingest_index.py:95-101 | the corpus loop builds the full index |
| Freshness.CarryForwardChunks | scripts/rag_ingest_freshness.py:19-29 | keeps the chunks of current documents in order, retires those of changed ones, and collects their old hashes |
| Freshness.CarryForwardDocs | scripts/rag_ingest_freshness.py:32-37 | the same for document records |
| Freshness.ChangedDocPaths | scripts/rag_ingest_freshness.py:8-16 | the forced documents and those whose latest hash differs, in corpus order |
| Freshness.AddChangedVersions | scripts/rag_ingest_freshness.py:40-45 | appends each changed document one version past its latest |
| Freshness.AddMissingDocs | scripts/rag_ingest_freshness.py:48-53 | appends the unchanged documents as first versions |
| Freshness.BuildIncremental | scripts/rag_ingest_freshness.py:56-74 | the whole step on a store that is updated in place, with its report |
| Freshness.CandidateChunks | scripts/rag_retrieve_text.py:32-42 | the loop offers exactly the chunks that match the filters, skipping retired ones unless a version is asked for |
| Records.CandidateIff | scripts/rag_retrieve_text.py:26-42 | a chunk is a candidate iff each filter names its version, or another key with the empty value, and it is latest unless a version is filtered for or the index groups no document |
| History.FullIsIncremental | scripts/rag_ingest_freshness.py:56-74 | a full build is the incremental build from nothing |
| History.StepKeepsIndex | scripts/rag_ingest_freshness.py:56-74 | every incremental step from a reachable index gives a reachable index of the new corpus |
| History.RunKeepsIndex | scripts/rag_ingest_freshness.py:56-74 | so does any history of steps from a full build |
| History.UnchangedKeepsHistory | scripts/rag_ingest_freshness.py:19-37 | a document neither new, edited nor forced keeps its records |
| History.ChangedGainsVersion | scripts/rag_ingest_freshness.py:40-45 | a new, edited or forced document keeps its earlier records and chunks, all retired, followed by one record and the chunks of the version after its latest |
| History.DeletedLeavesNoTrace | scripts/rag_ingest_freshness.py:19-37 | a deleted document leaves no record and no chunk |
| Agreement.RunAgreesWithRebuild | scripts/rag_ingest_freshness.py:56-74 | after any history the chunks offered of each document agree, in order, with a full build of the current corpus in heading, text, hashes and whatever embedding input does not name the ordinal |
| Agreement.IndexesAgree | scripts/rag_retrieve_text.py:32-42 | any two reachable indexes of one corpus offer the same passages |
| Agreement.OneLatestRecord | scripts/rag_ingest_freshness.py:32-45 | each current document has exactly one latest record, it has the greatest version, `docs_by_id` names it, and deleted documents have none |
| Agreement.ChunkIdsAreUnique | scripts/rag_ingest_index.py:14-18 | document, version and ordinal together, and hence chunk ids, are unique after any history |
| Agreement.RebuildIsIdempotent | scripts/rag_ingest_freshness.py:56-66 | an incremental build of an unchanged corpus with nothing forced leaves documents, chunks and grouping equal |
| Reports.ReportAddsUp | scripts/rag_ingest_freshness.py:67-73 | for any previous index, chunks = reused + invalidated + re-embedded, plus the passages of the documents added when the previous index listed none |
| Reports.AddsUpIff | scripts/rag_ingest_freshness.py:48-73 | the three counts cover all chunks iff the previous index lists a document or the unchanged documents have no passages |
| Reports.ReachableAddsUp | scripts/rag_ingest_freshness.py:56-73 | they do after every step from a reachable index, also an empty one |
| Reports.NamedWithoutDocs | scripts/rag_ingest_freshness.py:48-73 | an index with `docs_by_id` but no documents, and a one-passage document it names, for which they do not |
| Reports.CountsAreOfChunks | scripts/rag_ingest_freshness.py:71-72 | for any previous index, `reused` is the number of its chunks whose document is current and neither new, edited nor forced, and `invalidated` the number of those whose document is current and new, edited or forced |
| Reports.ReembeddedAreLatest | scripts/rag_ingest_freshness.py:70 | `reembedded` is the number of latest chunks of new, edited and forced documents in the new index |
| Reports.ChangedAreEdited | scripts/rag_ingest_freshness.py:12-15 | `changed` lists the new, edited and forced documents of the corpus, in its order |
| Reports.InvalidatedAreOldHashes | scripts/rag_ingest_freshness.py:28 | `invalidated` has an entry for each such document with previous chunks: the hashes these carry |
| Agreement.VersionGrows | scripts/rag_ingest_freshness.py:42 | a step raises a document's version by one iff it changed or was forced |
| Agreement.PinnedVersionsSurvive | scripts/rag_retrieve_text.py:34-41 | while a document stays, every version it ever had can be retrieved as it was indexed |
| Ordinals.IncrementalContinues | scripts/rag_ingest_freshness.py:40-53 | a step keeps the carried chunks in front and numbers each chunk behind them by its place, whatever the previous index |
| Ordinals.OrdinalsDistinctIff | scripts/rag_ingest_freshness.py:43 | for any previous index, ordinals are distinct after a step iff those of the carried chunks are and none of them lies above their number and up to the number of all chunks |
| Ordinals.RunIsNumbered | scripts/rag_ingest_freshness.py:40-53 | as long as no document with passages is dropped, chunk i has ordinal i + 1 and no two chunks share one |
| Ordinals.OrdinalsCanRepeat | scripts/rag_ingest_freshness.py:43 | under any chunk size, overlap, embedding and prefix settings, indexing two short documents, dropping the first and adding a third gives two chunks of ordinal 2 |
| EndToEnd.FencedCodeIsOffered | scripts/rag_retrieve_text.py:32-42 | after any history a closed fenced block of a current document is offered whole by one passage, if the first visible line of its section keeps its meaning when the section is stripped |
| SameAnswers.OffersAgree | scripts/rag_retrieve_text.py:32-42 | any two reachable indexes of one corpus offer the same multiset of documents and passages |
| SameAnswers.RunAnswersLikeRebuild | scripts/rag_retrieve_core.py:20-51 | after any history, if no two scores tie, the answer has as many rows as after a full build, and each row the same passage, document, rank and three scores, for scores that depend on passage, document and all offers |
| SameAnswers.RunScoresLikeRebuild | scripts/rag_retrieve_rank.py:9-24 | ties or not, each ranker's list is as long as after a full build and has the same score at every rank |
| Ordering.SortSorts | scripts/rag_retrieve_rank.py:15 | sorting under a strict total order gives a sorted permutation |
| Ordering.SortedUnique | scripts/rag_retrieve_rank.py:15 | sorted arrangements of the same elements are equal |
| Ordering.StringLessIff | scripts/rag_retrieve_rank.py:15 | one string comes before another iff it is a proper prefix or has the smaller character where they first differ |
| Hits.RankingOfEntries | scripts/rag_retrieve_core.py:36 | ranking a score dictionary does not depend on insertion order |
| Hits.GetOfPut | scripts/rag_retrieve_rank.py:40 | a stored score is read back and the other entries stay |
| Fusion.TopRankIsBest | scripts/rag_retrieve_rank.py:15-24 | top-k keeps positive scores in falling order, ties by id, and leaves out nothing better |
| Fusion.FusedTotals | scripts/rag_retrieve_rank.py:36-43 | each id's fused score is the total of its reciprocal-rank credits, kept iff positive, one entry an id |
| Fusion.RrfFuse | scripts/rag_retrieve_rank.py:36-52 | the two loops compute it, and fail iff some `rrf_k + rank` is zero |
| ShownScores.NeverZeroIff | scripts/rag_retrieve_rank.py:39-42 | no list of n entries divides by zero iff none of the ranks 1 to n is -rrf_k |
| ShownScores.HybridScore | scripts/rag_retrieve_rank.py:36-52 | in hybrid mode a chunk at ranks p and q of the two lists scores w / (rrf_k + p) + (1 - w) / (rrf_k + q), w being the fusion weight cut to [0, 1] and an absent rank counting nothing |
| Fusion.FusedScoresBounded | scripts/rag_retrieve_rank.py:36-52 | for `rrf_k >= 0` fused scores lie in (0, 1/(rrf_k+1)] |
| Fusion.FusionIsMonotone | scripts/rag_retrieve_rank.py:36-43 | a chunk ranked no worse in both lists never scores lower and is never lost alone |
| Fusion.DenseModeKeepsOrder | scripts/rag_retrieve_rank.py:46-49 | in dense mode the fused ranking is the dense list in its order |
| Fusion.Bm25ModeKeepsOrder | scripts/rag_retrieve_rank.py:50-51 | in bm25 mode it is the sparse list in its order |
| Retrieval.RerankInUnit | scripts/rag_retrieve_rank.py:55-61 | the rerank score lies in [0, 1] |
| ShownScores.RerankCounts | scripts/rag_retrieve_rank.py:55-61 | times 20 and the number of query tokens, the rerank score is 15 for each token shared with the text, 3 for each shared with the heading, and 2 for each query token if the text holds the phrase |
| Retrieval.Retrieve | scripts/rag_retrieve_core.py:20-51 | the answer shows the best entries of the reranked cut: ranks from one, no id twice, falling scores, nothing better left out; or division by zero |
| Retrieval.ResultRows | scripts/rag_retrieve_core.py:42-51 | the row loop ranks the first `final_n` reranked entries |
| Retrieval.RerankedFacts | scripts/rag_retrieve_core.py:35-39 | reranking permutes the cut, each entry once with its blended score, in falling order |
| Retrieval.AnswerScores | scripts/rag_retrieve_core.py:35-39 | shown scores lie in (0, 1] |
| Retrieval.DominanceIsKept | scripts/rag_retrieve_core.py:38-39 | a chunk ahead in both scores is shown ahead |
| ShownScores.ShownScore | scripts/rag_retrieve_core.py:36-38 | a row shows 0.65 times its fused score over the greatest of the cut, plus 0.35 times its reranker score |
| ShownScores.RowsFallByBlend | scripts/rag_retrieve_core.py:38-39 | rows fall by that sum |
| ShownScores.LeftOutByBlend | scripts/rag_retrieve_core.py:38-44 | nothing of the cut left out of the answer has a greater one |
| ShownScores.TiesStandById | scripts/rag_retrieve_core.py:39 | rows with equal scores stand by identifier |
| Retrieval.OverIsRanked | scripts/rag_retrieve_core.py:26-36 | what reaches the reranker is in one of the two lists and scores in (0, 1/(rrf_k+1)] |
| ShownScores.CutTakesBest | scripts/rag_retrieve_core.py:36 | a fused entry left out of the cut has no greater score than any entry in it, and a later identifier than those of equal score |
| Renaming.SortRenamedIff | scripts/rag_retrieve_rank.py:15 | sorting scores commutes with a one-to-one renaming of chunks iff the new names order tied chunks as the old ones |
| Renaming.RenamingIsInvisible | scripts/rag_retrieve_core.py:20-51 | renaming all chunks one to one renames the answer's chunks and changes no rank and no score, if no two scores tie |
| RankedScores.TopScoresAgree | scripts/rag_retrieve_rank.py:15-24 | lists with the same multiset of scores show the same score at every rank |
| Metrics.FirstGainsBound | scripts/rag_retrieve_core.py:75-76 | the first t gains of distinct results sum to no more than the t best relevance values |
| Metrics.DcgDominated | scripts/rag_retrieve_core.py:69-70 | dominated prefix sums give a dominated discounted sum |
| Metrics.DcgBound | scripts/rag_retrieve_core.py:69-79 | no result list of distinct ids collects more discounted gain than the ideal list of the same cut |
| Metrics.MetricsInUnit | scripts/rag_retrieve_core.py:73-79 | nDCG, reciprocal rank, recall and precision lie in [0, 1] and are positive together |
| Metrics.RetrievedMetricsInUnit | scripts/rag_retrieve_core.py:61-62 | this holds of every answer of `retrieve` |
| Metrics.NdcgBoundedIff | scripts/rag_retrieve_core.py:74-79 | nDCG is at most one for all results and relevance iff `final_n >= 0` |
| Metrics.NegativeCutExceeds | scripts/rag_retrieve_core.py:74-79 | concrete results and relevance with nDCG above one for every negative `final_n` |
| MetricValues.RecallAndPrecision | scripts/rag_retrieve_core.py:78-79 | recall is the number of shown results with positive relevance over that of relevant entries, precision over that of shown results, each divided by at least one |
| MetricValues.FirstRelevant | scripts/rag_retrieve_core.py:77 | the reciprocal rank is 1 over the place of the first result with positive relevance, or zero |
| MetricValues.BestOrderIsPerfect | scripts/rag_retrieve_core.py:76-79 | showing all relevant chunks, better ones first, gives nDCG one at every cut with a gain |
| MetricValues.WorseFirst | scripts/rag_retrieve_core.py:69-79 | two relevant chunks shown the worse one first have the gains weighted by place, over those of the better order |
| Variants.Board.Collect | scripts/rag_query_results.py:18-24 | the loop over results updates both dictionaries where the inverse rank improves |
| Variants.Board.RankedRows | scripts/rag_query_results.py:27-34 | lists the ranked scores with the stored rows under fresh ranks |
| Variants.Aggregate | scripts/rag_query_results.py:9-15 | the variants are merged and listed |
| Variants.MergeTakesMax | scripts/rag_query_results.py:18-24 | each id's score is the maximum over the variants of 1/(rank+1) |
| Variants.MergedScoreIsBestRank | scripts/rag_query_results.py:21-23 | an id's score is 1/(r + 1) for the best rank r at which a variant shows it |
| Variants.MergedRowIsFirstBest | scripts/rag_query_results.py:22-24 | the row kept is the first, by variant and then place, of those with the best rank |
| Variants.MergedRowsFall | scripts/rag_query_results.py:29-33 | merged rows fall by score and stand by identifier where scores are equal |
| Variants.VariantOrderIsIrrelevant | scripts/rag_query_results.py:9-34 | the ranking depends only on which variants there are |
| Variants.SameRows | scripts/rag_query_results.py:9-34 | so every listed row keeps its id, rank and score under reordering and repetition of variants |
| Findings.Findings.Add | scripts/validate-security-artifact.py:37-40 | records a finding once, behind what is recorded |
| Artifact.StringList | scripts/validate-security-artifact.py:70-75 | yields the strings and adds a finding iff the value is no list of non-empty strings |
| Artifact.MappingRows | scripts/validate-security-artifact.py:56-67 | yields the mapping rows and adds exactly the findings for a missing list and for non-mappings |
| Artifact.Index | scripts/validate-security-artifact.py:78-88 | keys rows by their first occurrence and adds exactly the findings for bad and repeated keys |
| Checks.CheckRoot | scripts/validate-security-artifact.py:97-111 | adds exactly the root findings, or raises iff a value is not iterable |
| Checks.CheckEvidence | scripts/validate-security-artifact.py:128-132 | adds exactly the evidence findings, or raises iff a status is unhashable |
| Checks.CheckPrerequisites | scripts/validate-security-artifact.py:134-139 | adds exactly the prerequisite findings, or raises |
| Checks.CheckControls | scripts/validate-security-artifact.py:141-154 | adds exactly the control findings, or raises |
| Checks.CheckThreats | scripts/validate-security-artifact.py:156-163 | adds exactly the findings for threats without control and for unknown threats, or raises |
| Checks.CheckRisks | scripts/validate-security-artifact.py:165-167 | adds exactly the findings for risks not accepted with a summary |
| Issues.CheckIssue | scripts/validate-security-artifact.py:175-230 | adds exactly the findings of one issue, or raises iff a listed prerequisite has gates that cannot be searched |
| Issues.CheckIssues | scripts/validate-security-artifact.py:169-231 | does so for all issues and collects what they claim, own and depend on |
| Ownership.CheckOwnership | scripts/validate-security-artifact.py:233-241 | adds exactly the findings for uncovered sections and for tests and controls without an issue |
| Ownership.CheckGates | scripts/validate-security-artifact.py:243-267 | adds exactly the findings of one prerequisite's gates, or raises |
| Ownership.CheckGroup | scripts/validate-security-artifact.py:269-279 | adds exactly the findings of one atomic group |
| Dependencies.Search.Report | scripts/validate-security-artifact.py:285-289 | the index of the key in the path exists and the path from there is a closed walk |
| Dependencies.Search.Visit | scripts/validate-security-artifact.py:284-297 | terminates, restores `visiting`, reports closed walks only, and otherwise finishes the issue after its dependencies |
| Dependencies.SearchCycles | scripts/validate-security-artifact.py:281-300 | a cycle is reported iff the known issues have one; otherwise it finds an order with dependencies first |
| Dependencies.OrderedIsAcyclic | scripts/validate-security-artifact.py:281-300 | an order with dependencies first excludes cycles |
| Dependencies.ReportIsWalkIff | scripts/validate-security-artifact.py:287-288 | the printed path is itself a walk iff the repeated issue depends on itself |
| Dependencies.MutualReportIsNoWalk | scripts/validate-security-artifact.py:287-288 | for issues a and b that depend on each other the report a, b, a, a is no walk |
| Validator.Validate | scripts/validate-security-artifact.py:91-302 | the findings are exactly the defects, each once under its rule, and closed walks of dependencies; `TypeError` iff a value is unhashable or not iterable |
| Documents.EntryIff | scripts/validate-security-artifact.py:56-88 | a table holds a row under a key iff the row is the first listed mapping with that non-empty string in the key field |
| Documents.FieldIs | scripts/validate-security-artifact.py:57 | a field's value is that of the last pair under its name |
| Verdict.FindingsAreBroken | scripts/validate-security-artifact.py:91-279 | a finding other than a cycle is returned iff the document breaks the rule it is reported under in the way its message says, each rule stated over the fields of the document with the script's values |
| Verdict.CyclesAreNamed | scripts/validate-security-artifact.py:284-289 | the findings about cycles are those under DEPENDENCY_CYCLE |
| Verdict.StopsIff | scripts/validate-security-artifact.py:105-267 | the script stops with a type error iff a listed value of the document is a list or mapping where a set is asked, or nothing that can be searched where it searches |
| Accepted.NoFindingsIffAccepted | scripts/validate-security-artifact.py:91-302 | no findings iff there is no defect, no cycle and an order of the issues |
| Accepted.AcceptedIsExecutable | scripts/validate-security-artifact.py:225-227 | without findings there is an order that holds every issue and in which every listed dependency comes first |
| Accepted.AcceptedGatesMatch | scripts/validate-security-artifact.py:202-259 | without findings "listed by the issue" and "gated by the prerequisite" are the same relation |
| Accepted.AcceptedIsGated | scripts/validate-security-artifact.py:212-267 | without findings an issue gated by an unverified prerequisite is labelled blocked and not auto-implement |
| Accepted.AcceptedAnswersThreats | scripts/validate-security-artifact.py:141-241 | without findings every threat has an owned control with negative tests, all known and owned |
| Verdict.AcceptedIsAuthoritative | scripts/validate-security-artifact.py:148-154 | without findings every control whose failure consequence is `data_loss` or `unauthorized_disclosure` is owned by `database` or `platform` with `authoritative` authority |
| Accepted.AcceptedIsAtomic | scripts/validate-security-artifact.py:269-279 | without findings a non-empty atomic group is declared by one issue, which alone produces every member |
| Packs.SelectedPackIds | scripts/autospec-constitution-rules.py:851-870 | terminates with the least set that has the profiles' packs and is closed under `inherits` and `requires`, sorted and without repetition |
| Packs.SelectionIsSpelledOut | scripts/autospec-constitution-rules.py:855-869 | a pack is selected iff it is a non-empty pack of a requested profile or stands in `inherits` or `requires` of a selected pack |
| Packs.Seeds | scripts/autospec-constitution-rules.py:855-860 | the non-empty packs of the requested profiles, each once |
| Packs.SelectionIsMonotone | scripts/autospec-constitution-rules.py:851-870 | requesting more profiles loses no pack |
| Packs.SelectionIgnoresOrder | scripts/autospec-constitution-rules.py:851-870 | order and repetition of the profiles do not matter |
| Ledger.MergeIntoLedger | scripts/autospec_review_audit.py:230-255 | the written file lists the merged dictionary in insertion order, every row complete |
| Ledger.FileIsMerge | scripts/autospec_review_audit.py:237-247 | a row the batch has is its last row for that gap with the status and notes of the first manual edit, if any, where a ledger row's absent column comes from the batch's first row and a cell without value stays empty; any other row is the ledger's, absent columns and cells without value empty |
| Ledger.FileByFirstRow | scripts/autospec_review_audit.py:231-254 | rows stand in the order in which the ledger and then the batch first name their gaps |
| Ledger.NoGapIsLost | scripts/autospec_review_audit.py:230-255 | gap ids are unique and are exactly those of the ledger and the batch |
| Ledger.MergeIsIdempotent | scripts/autospec_review_audit.py:222-255 | merging the same batch again changes nothing |
| Ledger.EditsSurvive | scripts/autospec_review_audit.py:244-246 | a preserved status and notes survive any sequence of merges |
| Ledger.PlainRowsYield | scripts/autospec_review_audit.py:237-247 | a gap that shows neither `wontfix` nor `false_positive` nor notes in the ledger and in all but the last row of the batch for it is written as that last row |
| Timeout.Inspect | crates/autospec-core/src/agent_watchdog.rs:134-179 | the token loop classifies as the scan of the words after the first `timeout` |
| Timeout.WordThenSpace | crates/autospec-core/src/agent_watchdog.rs:135 | a word and one whitespace character in front of a text add that word to its words |
| Timeout.ClassifiedByLimit | crates/autospec-core/src/agent_watchdog.rs:134-179 | behind the first `timeout` the first duration that is not the value of a `-k` is the limit, and the last grace given before it decides: escalating if it is a duration, bare if it is none or there is none |
| Timeout.ClassifiedUnbounded | crates/autospec-core/src/agent_watchdog.rs:134-179 | without a `timeout`, or such a duration behind it, the command is unbounded |
| Timeout.SpanParses | crates/autospec-core/src/agent_watchdog.rs:181-196 | digits, perhaps signed with a plus and followed by s, m, h or d, are read as that many seconds, minutes, hours or days, unless the seconds exceed 64 bits |
| Timeout.ParsedIsSpan | crates/autospec-core/src/agent_watchdog.rs:181-196 | nothing else is read as a duration |
| Timeout.RenderedIsRecognised | crates/autospec-core/src/agent_watchdog.rs:100-107 | a rendered command is classified as escalating with its limit and grace to the second, whatever the arguments |
| Timeout.RoundTripIffWhole | crates/autospec-core/src/agent_watchdog.rs:100-107 | limit and grace come back exactly iff both are whole seconds |
| Timeout.PrintedParses | crates/autospec-core/src/agent_watchdog.rs:182-196 | every printed 64-bit number of seconds parses as that duration |
| Timeout.SpellingsClassifyAlike | crates/autospec-core/src/agent_watchdog.rs:149-163 | `-k G`, `-kG` and `--kill-after=G` are classified alike behind any options |
| Timeout.SpacedLongForm | crates/autospec-core/src/agent_watchdog.rs:153-171 | with a limit L next and G other than the word `-k`, `--kill-after G` agrees with `-k G` iff a limit was already read or a value is pending, or G is a duration equal to L and to the grace read before, or G is no duration and leaves no grace; otherwise a duration G is taken for the limit |
| Timeout.SpacedFormIsBare | crates/autospec-core/src/agent_watchdog.rs:153-171 | directly behind `timeout`, `--kill-after G L` with durations G and L is classified as a bare limit G |
| Watchdog.SweepPartitions | crates/autospec-core/src/agent_watchdog.rs:376-406 | healthy, killed, deferred and late agents partition the population, and no subtraction clamps |
| Watchdog.SweepShows | crates/autospec-core/src/agent_watchdog.rs:355-406 | killed and deferred are the agents in a call past limit and margin without an artifact, reported in order are those whose call returned past limit and grace, and all others are healthy |
| Watchdog.SweepKillsInOrder | crates/autospec-core/src/agent_watchdog.rs:377-393 | killed then deferred is the sorted list of hung agents, at most the cap is killed, and the cap is used up before anyone is deferred |
| Watchdog.SweepsNeeded | crates/autospec-core/src/agent_watchdog.rs:376-406 | with a positive cap and no new hang, nobody hangs after k sweeps iff k reaches ceil(h / cap) |
| Watchdog.LeavingFollows | crates/autospec-core/src/agent_watchdog.rs:376-406 | removing the killed from agents with distinct ids leaves exactly the deferred hanging |
| ScaleUp.Decide | crates/autospec-core/src/aggregate_granularity.rs:203-250 | the loops compute the scale-ups; the target busy percentage is only carried along |
| ScaleUp.ScaledIffTriggers | crates/autospec-core/src/aggregate_granularity.rs:220-248 | a unit is listed iff it is present and deferring in each of the last `sustained` samples, with its latest count |
| ScaleUp.ScaledIff | crates/autospec-core/src/aggregate_granularity.rs:208-248 | the same over the observations: in each of the last `sustained` samples, at least one, the unit's first observation has deferred requests, and the count shown is that of the last sample |
| ScaleUp.ListedByPlace | crates/autospec-core/src/aggregate_granularity.rs:224-235 | units are listed in the order in which the first of those samples names them |
| ScaleUp.ScaledOnce | crates/autospec-core/src/aggregate_granularity.rs:222-231 | no unit is listed twice |
| ScaleUp.TriggersAntitone | crates/autospec-core/src/aggregate_granularity.rs:203-250 | asking for fewer sustained samples loses no trigger |
| ScaleUp.TriggersLocally | crates/autospec-core/src/aggregate_granularity.rs:232-241 | only the unit's own first observations decide |
| StackConfidence.Detect | scripts/autospec_autonomy_stack.py:184-201 | the profiles are the candidates with their confidence, by falling confidence and then id |
| StackConfidence.ShownConfidence | scripts/autospec_autonomy_stack.py:152-194 | a language with less than half of the lines has confidence 0.5; any other has 0.5 + 0.45 times its share up to rounding, cut at 0.95 |
| StackConfidence.ProfilesFall | scripts/autospec_autonomy_stack.py:195 | profiles stand by falling confidence, equal ones by identifier |
| StackConfidence.OneMajority | scripts/autospec_autonomy_stack.py:186-190 | at most one language holds more than half of the lines |
| StackConfidence.ConfidentIsPrimary | scripts/autospec_autonomy_stack.py:152-156 | a language at confidence 0.8 or more is the primary profile and all others are at the clamped 0.5 |

## Left out

- Agreement.RunAgreesWithRebuild: the embedding input is compared only where it does not name the ordinal, since chunk ids and contextual prefixes contain it.
- StackConfidence.ConfidentIsPrimary: rounding is any map that moves a value by at most 0.005.
- Reading files, git, YAML, JSON, CSV and command lines: parsed rows, texts and a corpus list are inputs, and writing a file is returning its rows; a ledger row without `gap_id` (a `KeyError`) is not modelled.
- SHA values and the wording of the contextual prefix: a hash and a prefix are constructors over what they depend on.
- The two sorted lists of the incremental index (versions of a document, invalidated hashes) are sets.
- Tokenization, BM25 weights and token counts: scores are inputs; only the ranking of scores is modelled. Floating-point rounding, also of result rows and metrics, is not.
- Extra fields of result rows and the freshness guard of `retrieve`; averaging of metrics over a golden set.
- The order in which the validator lists its findings.
- Validator messages are kept as template and parameters: two findings whose rendered texts happen to coincide are one item in the script. Owners in a split finding are a set instead of a sorted list, and owner lists are sets. YAML values without a JSON counterpart are not modelled.
- Loading of `profiles.yml` and of the pack files (`baseline_pack_map`).
- `Duration` overflow when limits and margins are added, and the summary line of a sweep.
- `aggregate_threshold`, `max_average_shift` and the decision line: single expressions and formatting; sums of 32-bit counts are unbounded.
- Markers, evidence texts and frameworks of a stack profile; the language table is a map from suffix to language.
