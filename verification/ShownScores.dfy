/** The scores of an answer in numbers: fusion weights, the blend and the reranker's counts. */
module ShownScores {
  import opened Ordering
  import opened Hits
  import opened Fusion
  import opened Retrieval

  // ----- fusion -----

  /** `id` stands at rank `p` of the list, counted from one, or nowhere if `p` is zero. */
  ghost predicate IsRank(list: seq<Hit>, id: string, p: nat) {
    if p == 0 then forall i :: 0 <= i < |list| ==> list[i].id != id
    else p <= |list| && list[p - 1].id == id
  }

  lemma RankIsPosition(list: seq<Hit>, id: string, p: nat)
    requires IsDict(list) && IsRank(list, id, p)
    ensures Position(list, id, |list|) == if p == 0 then |list| else p - 1
  {
    if p > 0 {
      Found(list, p - 1);
    }
  }

  lemma RankCredit(list: seq<Hit>, id: string, weight: real, rrfK: nat, p: nat)
    requires IsDict(list) && IsRank(list, id, p)
    ensures Credit(list, id, weight, rrfK, |list|) == if p == 0 then 0.0 else weight / (rrfK + p) as real
  {
    RankIsPosition(list, id, p);
    CreditOfRanked(list, id, weight, rrfK, |list|);
  }

  /** In hybrid mode a chunk at ranks `p` and `q` of the two lists is fused to `w / (rrf_k + p)` plus
      `(1 - w) / (rrf_k + q)`, where `w` is the fusion weight cut to the unit interval. */
  lemma HybridScore(dense: seq<Hit>, bm25: seq<Hit>, rrfK: nat, mode: string, fusionWeight: real, w: real, id: string, p: nat, q: nat)
    requires IsDict(dense) && IsDict(bm25) && IsRank(dense, id, p) && IsRank(bm25, id, q)
    requires mode != "dense" && mode != "bm25"
    requires if fusionWeight < 0.0 then w == 0.0 else if fusionWeight > 1.0 then w == 1.0 else w == fusionWeight
    ensures Get(Fuse(dense, bm25, rrfK, DenseWeight(mode, fusionWeight)), id, 0.0)
         == (if p == 0 then 0.0 else w / (rrfK + p) as real) + (if q == 0 then 0.0 else (1.0 - w) / (rrfK + q) as real)
  {
    RankCredit(dense, id, w, rrfK, p);
    RankCredit(bm25, id, 1.0 - w, rrfK, q);
    CreditBound(dense, id, w, rrfK);
    CreditBound(bm25, id, 1.0 - w, rrfK);
    FusedTotals(dense, bm25, rrfK, w, id);
  }

  // ----- the cut -----

  /** What reaches the reranker are the best fused entries: one left out has no greater score than any of them,
      and among equal scores a later identifier. */
  lemma CutTakesBest(fused: seq<Hit>, topN: int, over: seq<Hit>, h: Hit, k: nat)
    requires IsDict(fused) && over == Over(fused, topN) && h in fused && h !in over && k < |over|
    ensures over[k] in fused && h.score <= over[k].score
    ensures h.score == over[k].score ==> StringLess()(over[k].id, h.id)
  {
    var ranked := Sort(fused, HitBefore());
    RankedIsDict(fused);
    SameMembers(fused, ranked, h);
    RestComesAfter(ranked, over, h);
    RestComesAfter(ranked, over, over[k]);
    SameMembers(fused, ranked, over[k]);
    StringsAreOrdered();
    assert Decides(StringLess(), over[k].id, h.id);
    OneScoreEach(fused, over[k], h);
  }

  lemma OneScoreEach(d: seq<Hit>, a: Hit, b: Hit)
    requires IsDict(d) && a in d && b in d
    ensures a.id == b.id ==> a == b
  {
    InDict(d, a);
    InDict(d, b);
  }

  // ----- the blend -----

  /** `top` is the greatest fused score of the cut. */
  ghost predicate IsTop(over: seq<Hit>, top: real) {
    (exists k :: 0 <= k < |over| && over[k].score == top) && forall k :: 0 <= k < |over| ==> over[k].score <= top
  }

  lemma {:induction false} MaxScoreReached(over: seq<Hit>, n: nat)
    requires 0 < n <= |over|
    ensures exists k :: 0 <= k < n && over[k].score == MaxScore(over, n)
  {
    if n == 1 {
      assert over[0].score == MaxScore(over, n);
    } else {
      MaxScoreReached(over, n - 1);
      if over[n - 1].score <= MaxScore(over, n - 1) {
        var k :| 0 <= k < n - 1 && over[k].score == MaxScore(over, n - 1);
        assert over[k].score == MaxScore(over, n);
      } else {
        assert over[n - 1].score == MaxScore(over, n);
      }
    }
  }

  lemma TopIsMax(over: seq<Hit>, top: real)
    requires IsTop(over, top)
    ensures MaxScore(over, |over|) == top
  {
    var k :| 0 <= k < |over| && over[k].score == top;
    MaxScoreFacts(over, |over|, k);
    MaxScoreReached(over, |over|);
    var j :| 0 <= j < |over| && over[j].score == MaxScore(over, |over|);
  }

  /** A row shows 0.65 times its fused score over the greatest of the cut, plus 0.35 times its
      reranker score. */
  lemma ShownScore(over: seq<Hit>, rerank: string -> real, finalN: int, rows: seq<Row>, i: nat, top: real)
    requires IsAnswer(over, rerank, finalN, rows) && i < |rows| && IsTop(over, top) && top > 0.0
    ensures Hit(rows[i].id, rows[i].fused) in over && rows[i].reranker == rerank(rows[i].id)
    ensures rows[i].score == 0.65 * (rows[i].fused / top) + 0.35 * rows[i].reranker
  {
    TopIsMax(over, top);
    assert RowOf(over, rerank, rows[i]);
  }

  lemma NotBefore(rows: seq<Row>, i: nat, j: nat)
    requires RowsFall(rows) && i < j < |rows|
    ensures rows[i].score >= rows[j].score
  {
    assert !RowBefore(rows[j], rows[i]);
  }

  /** So the rows fall by that sum. */
  lemma RowsFallByBlend(over: seq<Hit>, rerank: string -> real, finalN: int, rows: seq<Row>, i: nat, j: nat, top: real)
    requires IsAnswer(over, rerank, finalN, rows) && i < j < |rows| && IsTop(over, top) && top > 0.0
    ensures 0.65 * (rows[i].fused / top) + 0.35 * rows[i].reranker >= 0.65 * (rows[j].fused / top) + 0.35 * rows[j].reranker
  {
    ShownScore(over, rerank, finalN, rows, i, top);
    ShownScore(over, rerank, finalN, rows, j, top);
    NotBefore(rows, i, j);
  }

  /** And nothing left out of the answer has a greater one than what is shown. */
  lemma LeftOutByBlend(over: seq<Hit>, rerank: string -> real, finalN: int, rows: seq<Row>, h: Hit, j: nat, top: real)
    requires IsAnswer(over, rerank, finalN, rows) && j < |rows| && IsTop(over, top) && top > 0.0
    requires h in over && LeftOut(rows, h.id)
    ensures 0.65 * (h.score / top) + 0.35 * rerank(h.id) <= rows[j].score
  {
    TopIsMax(over, top);
    assert NoneAfter(rows, BlendOf(over, rerank, h));
  }

  /** Rows with equal scores stand by identifier. */
  lemma TiesStandById(over: seq<Hit>, rerank: string -> real, finalN: int, rows: seq<Row>, i: nat, j: nat)
    requires IsAnswer(over, rerank, finalN, rows) && i < j < |rows| && rows[i].score == rows[j].score
    ensures StringLess()(rows[i].id, rows[j].id)
  {
    StringsAreOrdered();
    assert rows[i].id != rows[j].id && !RowBefore(rows[j], rows[i]);
    assert Decides(StringLess(), rows[i].id, rows[j].id);
  }

  predicate Cancels(rrfK: int, rank: nat) {
    rrfK + rank == 0
  }

  /** A list of `n` entries divides by zero exactly when one of its ranks cancels `rrf_k`. */
  lemma NeverZeroIff(rrfK: int, n: nat)
    ensures NeverZero(rrfK, n) <==> forall rank: nat :: 1 <= rank <= n ==> !Cancels(rrfK, rank)
  {
    if !NeverZero(rrfK, n) {
      assert Cancels(rrfK, -rrfK);
    }
  }

  // ----- the reranker's own score -----

  /** Twenty times the length of the query times the score: the shared tokens of the text count fifteen,
      those of the heading three, and the whole phrase two for each token of the query. */
  lemma RerankCounts(query: multiset<string>, text: multiset<string>, heading: multiset<string>, phrase: bool)
    requires |query| > 0
    ensures RerankScore(query, text, heading, phrase) * (20 * |query|) as real
         == (15 * |query * text| + 3 * |query * heading| + if phrase then 2 * |query| else 0) as real
  {
    var n := |query| as real;
    assert |query * text| as real / n * n == |query * text| as real;
    assert |query * heading| as real / n * n == |query * heading| as real;
  }

  /** For an empty query only the phrase counts, which every text holds. */
  lemma EmptyQueryScore(text: multiset<string>, heading: multiset<string>, phrase: bool)
    ensures RerankScore(multiset{}, text, heading, phrase) == if phrase then 0.1 else 0.0
  {
  }
}
