/** Reranking the fused scores and cutting the result list. */
module Retrieval {
  import opened Ordering
  import opened Hits
  import opened Fusion

  /** `_rerank`'s row, without the rounding. */
  datatype Row = Row(rank: nat, id: string, score: real, fused: real, reranker: real)

  datatype Knobs = Knobs(denseTopK: int, bm25TopK: int, rrfK: int, fusionWeight: real, rerankTopN: int, finalN: int)

  /** `count_overlap`: tokens shared, each as often as both sides have it. */
  function CountOverlap(query: multiset<string>, doc: multiset<string>): nat {
    |query * doc|
  }

  function Fraction(part: nat, whole: nat): real {
    if whole == 0 then 0.0 else part as real / whole as real
  }

  /** `rerank_score` on token counts; `phrase` says that the text holds the whole query. */
  function RerankScore(query: multiset<string>, text: multiset<string>, heading: multiset<string>, phrase: bool): real {
    0.75 * Fraction(CountOverlap(query, text), |query|)
    + 0.15 * Fraction(CountOverlap(query, heading), |query|)
    + if phrase then 0.10 else 0.0
  }

  lemma FractionInUnit(part: nat, whole: nat)
    requires part <= whole
    ensures 0.0 <= Fraction(part, whole) <= 1.0
  {
    if whole > 0 {
      assert part as real / whole as real * whole as real == part as real;
    }
  }

  lemma SmallerPart(a: multiset<string>, b: multiset<string>)
    ensures |a * b| <= |a|
  {
    assert a == a * b + (a - b);
  }

  lemma RerankInUnit(query: multiset<string>, text: multiset<string>, heading: multiset<string>, phrase: bool)
    ensures 0.0 <= RerankScore(query, text, heading, phrase) <= 1.0
  {
    SmallerPart(query, text);
    SmallerPart(query, heading);
    FractionInUnit(CountOverlap(query, text), |query|);
    FractionInUnit(CountOverlap(query, heading), |query|);
  }

  // ----- _rerank -----

  /** `max([score ...] or [1.0])` over the first `n` of a non-empty list. */
  function MaxScore(over: seq<Hit>, n: nat): real
    requires n <= |over|
  {
    if n == 0 then 1.0
    else if n == 1 then over[0].score
    else
      var before := MaxScore(over, n - 1);
      if over[n - 1].score > before then over[n - 1].score else before
  }

  function Blend(score: real, maxFused: real, reranker: real): real {
    0.65 * (if maxFused != 0.0 then score / maxFused else score) + 0.35 * reranker
  }

  function Blended(over: seq<Hit>, maxFused: real, rerank: string -> real, n: nat): (r: seq<Hit>)
    requires n <= |over|
    ensures |r| == n
    ensures forall i :: 0 <= i < n ==> r[i] == Hit(over[i].id, Blend(over[i].score, maxFused, rerank(over[i].id)))
  {
    if n == 0 then []
    else
      var h := over[n - 1];
      Blended(over, maxFused, rerank, n - 1) + [Hit(h.id, Blend(h.score, maxFused, rerank(h.id)))]
  }

  function Over(fused: seq<Hit>, topN: int): seq<Hit> {
    PyTake(Sort(fused, HitBefore()), topN)
  }

  function Rerank(over: seq<Hit>, rerank: string -> real): seq<Hit> {
    Sort(Blended(over, MaxScore(over, |over|), rerank, |over|), HitBefore())
  }

  function MakeRow(h: Hit, over: seq<Hit>, rerank: string -> real, rank: nat): Row {
    Row(rank, h.id, h.score, Get(over, h.id, 0.0), rerank(h.id))
  }

  function Rows(reranked: seq<Hit>, over: seq<Hit>, rerank: string -> real, n: nat): (r: seq<Row>)
    requires n <= |reranked|
    ensures |r| == n
    ensures forall i :: 0 <= i < n ==> r[i] == MakeRow(reranked[i], over, rerank, i + 1)
  {
    if n == 0 then []
    else Rows(reranked, over, rerank, n - 1) + [MakeRow(reranked[n - 1], over, rerank, n)]
  }

  /** `_result_rows` */
  method ResultRows(reranked: seq<Hit>, over: seq<Hit>, rerank: string -> real, finalN: int) returns (rows: seq<Row>)
    ensures rows == Rows(PyTake(reranked, finalN), over, rerank, |PyTake(reranked, finalN)|)
  {
    rows := [];
    var kept := PyTake(reranked, finalN);
    for i := 0 to |kept|
      invariant rows == Rows(kept, over, rerank, i)
    {
      rows := rows + [MakeRow(kept[i], over, rerank, i + 1)];
    }
  }

  datatype Answer = Answer(rows: seq<Row>) | ZeroDivision

  /** The rows for what reaches the reranker. */
  function Answered(over: seq<Hit>, rerank: string -> real, finalN: int): seq<Row> {
    var kept := PyTake(Rerank(over, rerank), finalN);
    Rows(kept, over, rerank, |kept|)
  }

  /** What `retrieve` answers. */
  function AnswerOf(dense: seq<Hit>, bm25: seq<Hit>, knobs: Knobs, mode: string, rerank: string -> real): Answer {
    var d, b := TopRank(dense, knobs.denseTopK), TopRank(bm25, knobs.bm25TopK);
    if NeverZero(knobs.rrfK, |d|) && NeverZero(knobs.rrfK, |b|) then
      Answer(Answered(Over(Fuse(d, b, knobs.rrfK, DenseWeight(mode, knobs.fusionWeight)), knobs.rerankTopN), rerank, knobs.finalN))
    else
      ZeroDivision
  }

  /** `retrieve` after the candidates have been scored by both rankers. */
  method Retrieve(dense: seq<Hit>, bm25: seq<Hit>, knobs: Knobs, mode: string, rerank: string -> real)
    returns (answer: Answer)
    ensures var d, b := TopRank(dense, knobs.denseTopK), TopRank(bm25, knobs.bm25TopK);
            && (answer.ZeroDivision? <==> !(NeverZero(knobs.rrfK, |d|) && NeverZero(knobs.rrfK, |b|)))
            && (answer.Answer? ==>
                  var over := Over(Fuse(d, b, knobs.rrfK, DenseWeight(mode, knobs.fusionWeight)), knobs.rerankTopN);
                  IsAnswer(over, rerank, knobs.finalN, answer.rows))
    ensures answer == AnswerOf(dense, bm25, knobs, mode, rerank)
  {
    var d, b := TopRank(dense, knobs.denseTopK), TopRank(bm25, knobs.bm25TopK);
    var fusion := RrfFuse(d, b, knobs.rrfK, knobs.fusionWeight, mode);
    if fusion.DivisionByZero? {
      return ZeroDivision;
    }
    var over := Over(fusion.scores, knobs.rerankTopN);
    var rows := ResultRows(Rerank(over, rerank), over, rerank, knobs.finalN);
    FuseIsDict(d, b, knobs.rrfK, DenseWeight(mode, knobs.fusionWeight));
    OverIsDict(fusion.scores, knobs.rerankTopN);
    RowsAreAnswer(over, rerank, knobs.finalN, rows);
    return Answer(rows);
  }

  // ----- what the answer is -----

  /** `a` is at least as good as `b` in both scores and better in one. */
  predicate Dominates(a: Row, b: Row) {
    a.fused >= b.fused && a.reranker >= b.reranker && (a.fused > b.fused || a.reranker > b.reranker)
  }

  ghost predicate RowOf(over: seq<Hit>, rerank: string -> real, row: Row) {
    && Hit(row.id, row.fused) in over
    && row.reranker == rerank(row.id)
    && row.score == Blend(row.fused, MaxScore(over, |over|), row.reranker)
  }

  /** The rows are the best `finalN` of the reranked entries: each entry at most once, ranks
      from one, by falling score and then identifier; and no entry left out comes before
      one shown. */
  ghost predicate IsAnswer(over: seq<Hit>, rerank: string -> real, finalN: int, rows: seq<Row>) {
    && |rows| == |PyTake(over, finalN)|
    && (forall i :: 0 <= i < |rows| ==> rows[i].rank == i + 1 && RowOf(over, rerank, rows[i]))
    && RowsFall(rows)
    && (forall h :: h in over && LeftOut(rows, h.id) ==> NoneAfter(rows, BlendOf(over, rerank, h)))
  }

  ghost predicate RowsFall(rows: seq<Row>) {
    forall i, j :: 0 <= i < j < |rows| ==> rows[i].id != rows[j].id && !RowBefore(rows[j], rows[i])
  }

  predicate RowBefore(a: Row, b: Row) {
    HitBefore()(Hit(a.id, a.score), Hit(b.id, b.score))
  }

  function BlendOf(over: seq<Hit>, rerank: string -> real, h: Hit): Hit {
    Hit(h.id, Blend(h.score, MaxScore(over, |over|), rerank(h.id)))
  }

  ghost predicate LeftOut(rows: seq<Row>, id: string) {
    forall i :: 0 <= i < |rows| ==> rows[i].id != id
  }

  ghost predicate NoneAfter(rows: seq<Row>, h: Hit) {
    forall i :: 0 <= i < |rows| ==> !HitBefore()(h, Hit(rows[i].id, rows[i].score))
  }

  lemma FuseIsDict(dense: seq<Hit>, bm25: seq<Hit>, rrfK: int, weight: real)
    requires NeverZero(rrfK, |dense|) && NeverZero(rrfK, |bm25|)
    ensures IsDict(Fuse(dense, bm25, rrfK, weight))
  {
    FusedTotals(dense, bm25, rrfK, weight, "");
  }

  lemma TakenIsDict(d: seq<Hit>, k: int)
    requires IsDict(d)
    ensures IsDict(PyTake(d, k))
  {
  }

  lemma OverIsDict(fused: seq<Hit>, topN: int)
    requires IsDict(fused)
    ensures IsDict(Over(fused, topN))
  {
    RankedIsDict(fused);
    TakenIsDict(Sort(fused, HitBefore()), topN);
  }

  lemma BlendedIn(over: seq<Hit>, rerank: string -> real, blended: seq<Hit>, h: Hit)
    requires IsDict(over) && blended == Blended(over, MaxScore(over, |over|), rerank, |over|)
    ensures IsDict(blended)
    ensures h in blended ==> RowOf(over, rerank, MakeRow(h, over, rerank, 0))
    ensures h in over ==> BlendOf(over, rerank, h) in blended
  {
    if h in blended {
      var i :| 0 <= i < |blended| && blended[i] == h;
      InDict(over, over[i]);
    }
    if h in over {
      var i :| 0 <= i < |over| && over[i] == h;
      assert blended[i] == BlendOf(over, rerank, h);
    }
  }

  lemma RerankedFacts(over: seq<Hit>, rerank: string -> real, h: Hit)
    requires IsDict(over)
    ensures var r := Rerank(over, rerank);
            && IsDict(r) && Sorted(r, HitBefore()) && |r| == |over|
            && (h in r ==> RowOf(over, rerank, MakeRow(h, over, rerank, 0)))
            && (h in over ==> BlendOf(over, rerank, h) in r)
  {
    var blended := Blended(over, MaxScore(over, |over|), rerank, |over|);
    BlendedIn(over, rerank, blended, h);
    RankedIsDict(blended);
    SameMembers(blended, Rerank(over, rerank), h);
    SameMembers(blended, Rerank(over, rerank), BlendOf(over, rerank, h));
  }

  ghost predicate RowsTake(r: seq<Hit>, over: seq<Hit>, rerank: string -> real, rows: seq<Row>) {
    |rows| <= |r| && forall i :: 0 <= i < |rows| ==> rows[i] == MakeRow(r[i], over, rerank, i + 1)
  }

  lemma TakenRow(r: seq<Hit>, over: seq<Hit>, rerank: string -> real, rows: seq<Row>, k: nat)
    requires RowsTake(r, over, rerank, rows)
    ensures k < |rows| ==> rows[k].id == r[k].id
  {
  }

  lemma TakenFall(r: seq<Hit>, over: seq<Hit>, rerank: string -> real, rows: seq<Row>)
    requires IsDict(r) && Sorted(r, HitBefore()) && RowsTake(r, over, rerank, rows)
    ensures RowsFall(rows)
  {
    forall i, j | 0 <= i < j < |rows| ensures rows[i].id != rows[j].id && !RowBefore(rows[j], rows[i]) {
      assert rows[i] == MakeRow(r[i], over, rerank, i + 1) && rows[j] == MakeRow(r[j], over, rerank, j + 1);
    }
  }

  lemma AfterTaken(r: seq<Hit>, over: seq<Hit>, rerank: string -> real, rows: seq<Row>, h: Hit)
    requires Sorted(r, HitBefore()) && h in r && RowsTake(r, over, rerank, rows) && LeftOut(rows, h.id)
    ensures NoneAfter(rows, h)
  {
    var k :| 0 <= k < |r| && r[k] == h;
    TakenRow(r, over, rerank, rows, k);
  }

  lemma TakenShown(r: seq<Hit>, over: seq<Hit>, rerank: string -> real, rows: seq<Row>, i: nat)
    requires IsDict(over) && r == Rerank(over, rerank) && RowsTake(r, over, rerank, rows) && i < |rows|
    ensures rows[i].rank == i + 1 && RowOf(over, rerank, rows[i])
  {
    RerankedFacts(over, rerank, r[i]);
  }

  lemma RowsAreAnswer(over: seq<Hit>, rerank: string -> real, finalN: int, rows: seq<Row>)
    requires IsDict(over)
    requires rows == Rows(PyTake(Rerank(over, rerank), finalN), over, rerank, |PyTake(Rerank(over, rerank), finalN)|)
    ensures IsAnswer(over, rerank, finalN, rows)
  {
    var r := Rerank(over, rerank);
    assert RowsTake(r, over, rerank, rows);
    RerankedFacts(over, rerank, Hit("", 0.0));
    TakenFall(r, over, rerank, rows);
    forall i | 0 <= i < |rows| ensures rows[i].rank == i + 1 && RowOf(over, rerank, rows[i]) {
      TakenShown(r, over, rerank, rows, i);
    }
    forall h | h in over && LeftOut(rows, h.id) ensures NoneAfter(rows, BlendOf(over, rerank, h)) {
      RerankedFacts(over, rerank, h);
      AfterTaken(r, over, rerank, rows, BlendOf(over, rerank, h));
    }
  }

  // ----- scores of the answer -----

  lemma {:induction false} MaxScoreFacts(over: seq<Hit>, n: nat, i: nat)
    requires i < n <= |over|
    ensures over[i].score <= MaxScore(over, n)
  {
    if i < n - 1 {
      MaxScoreFacts(over, n - 1, i);
    }
  }

  lemma RatioInUnit(score: real, max: real)
    requires 0.0 < score <= max
    ensures 0.0 < score / max <= 1.0
  {
    assert score / max * max == score;
  }

  /** Every row shown scores in `(0, 1]` when the fused scores are positive and the
      reranker's are in the unit interval. */
  lemma AnswerScores(over: seq<Hit>, rerank: string -> real, finalN: int, rows: seq<Row>, i: nat)
    requires IsAnswer(over, rerank, finalN, rows) && i < |rows|
    requires forall k :: 0 <= k < |over| ==> over[k].score > 0.0
    requires 0.0 <= rerank(rows[i].id) <= 1.0
    ensures 0.0 < rows[i].score <= 1.0
  {
    var h := Hit(rows[i].id, rows[i].fused);
    var k :| 0 <= k < |over| && over[k] == h;
    MaxScoreFacts(over, |over|, k);
    RatioInUnit(h.score, MaxScore(over, |over|));
  }

  lemma BlendGrows(a: real, b: real, max: real, p: real, q: real)
    requires max > 0.0 && a >= b && p >= q && (a > b || p > q)
    ensures Blend(a, max, p) > Blend(b, max, q)
  {
    var x, y := a / max, b / max;
    assert x * max == a && y * max == b;
    if a > b {
      assert (x - y) * max > 0.0;
      assert x > y;
    }
  }

  lemma MaxIsPositive(over: seq<Hit>, h: Hit)
    requires h in over && forall k :: 0 <= k < |over| ==> over[k].score > 0.0
    ensures MaxScore(over, |over|) > 0.0
  {
    MaxScoreFacts(over, |over|, 0);
  }

  lemma DominatesBefore(a: Row, b: Row, max: real)
    requires max > 0.0 && Dominates(a, b)
    requires a.score == Blend(a.fused, max, a.reranker) && b.score == Blend(b.fused, max, b.reranker)
    ensures RowBefore(a, b) && !RowBefore(b, a)
  {
    BlendGrows(a.fused, b.fused, max, a.reranker, b.reranker);
  }

  /** A chunk that both scores put ahead is shown ahead. */
  lemma DominanceIsKept(over: seq<Hit>, rerank: string -> real, finalN: int, rows: seq<Row>, i: nat, j: nat)
    requires IsAnswer(over, rerank, finalN, rows) && i < |rows| && j < |rows|
    requires forall k :: 0 <= k < |over| ==> over[k].score > 0.0
    requires Dominates(rows[i], rows[j])
    ensures i < j
  {
    assert RowsFall(rows) && (j < i ==> !RowBefore(rows[i], rows[j]));
    assert RowOf(over, rerank, rows[i]) && RowOf(over, rerank, rows[j]);
    MaxIsPositive(over, Hit(rows[i].id, rows[i].fused));
    DominatesBefore(rows[i], rows[j], MaxScore(over, |over|));
  }

  /** What reaches the reranker was ranked by one of the two lists, and scored above zero. */
  lemma OverIsRanked(dense: seq<Hit>, bm25: seq<Hit>, rrfK: nat, weight: real, topN: int, h: Hit)
    requires IsDict(dense) && IsDict(bm25) && 0.0 <= weight <= 1.0
    requires h in Over(Fuse(dense, bm25, rrfK, weight), topN)
    ensures 0.0 < h.score <= 1.0 / (rrfK + 1) as real
    ensures Has(dense, h.id) || Has(bm25, h.id)
  {
    var fused := Fuse(dense, bm25, rrfK, weight);
    FuseIsDict(dense, bm25, rrfK, weight);
    RankedIsDict(fused);
    SameMembers(fused, Sort(fused, HitBefore()), h);
    FusedScoresBounded(dense, bm25, rrfK, weight, h);
    InDict(fused, h);
    FusedTotals(dense, bm25, rrfK, weight, h.id);
    CreditOfRanked(dense, h.id, weight, rrfK, |dense|);
    CreditOfRanked(bm25, h.id, 1.0 - weight, rrfK, |bm25|);
  }
}
