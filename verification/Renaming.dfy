/** Ranking does not look into identifiers: renaming the chunks renames the answer, as long as the
    new names sort the same way wherever scores tie. */
module Renaming {
  import opened Ordering
  import opened Hits
  import opened Fusion
  import opened Retrieval

  predicate Within(d: seq<Hit>, ids: set<string>) {
    forall i :: 0 <= i < |d| ==> d[i].id in ids
  }

  ghost predicate OneToOne(r: string -> string, ids: set<string>) {
    forall x, y :: x in ids && y in ids && r(x) == r(y) ==> x == y
  }

  function RenamedHit(h: Hit, r: string -> string): Hit {
    Hit(r(h.id), h.score)
  }

  function RenamedTo(d: seq<Hit>, r: string -> string, n: nat): (e: seq<Hit>)
    requires n <= |d|
    ensures |e| == n && forall i :: 0 <= i < n ==> e[i] == RenamedHit(d[i], r)
  {
    if n == 0 then [] else RenamedTo(d, r, n - 1) + [RenamedHit(d[n - 1], r)]
  }

  function Renamed(d: seq<Hit>, r: string -> string): (e: seq<Hit>)
    ensures |e| == |d| && forall i :: 0 <= i < |d| ==> e[i] == RenamedHit(d[i], r)
  {
    RenamedTo(d, r, |d|)
  }

  // ----- dictionaries -----

  lemma RenamedIsDict(d: seq<Hit>, r: string -> string, ids: set<string>)
    requires IsDict(d) && Within(d, ids) && OneToOne(r, ids)
    ensures IsDict(Renamed(d, r))
  {
    var e := Renamed(d, r);
    forall i, j | 0 <= i < j < |e| ensures e[i].id != e[j].id {
      assert d[i].id in ids && d[j].id in ids;
    }
  }

  lemma {:induction false} PositionRenamed(d: seq<Hit>, e: seq<Hit>, r: string -> string, ids: set<string>, id: string, n: nat)
    requires e == Renamed(d, r) && Within(d, ids) && id in ids && OneToOne(r, ids) && n <= |d|
    ensures Position(e, r(id), n) == Position(d, id, n)
  {
    if n > 0 {
      PositionRenamed(d, e, r, ids, id, n - 1);
      assert e[n - 1].id == r(d[n - 1].id) && d[n - 1].id in ids;
    }
  }

  lemma PutRenamed(d: seq<Hit>, e: seq<Hit>, r: string -> string, ids: set<string>, id: string, amount: real)
    requires e == Renamed(d, r) && Within(d, ids) && id in ids && OneToOne(r, ids)
    ensures AddTo(e, r(id), amount) == Renamed(AddTo(d, id, amount), r)
    ensures Within(AddTo(d, id, amount), ids)
  {
    PositionRenamed(d, e, r, ids, id, |d|);
  }

  lemma {:induction false} AddRanksRenamed(d: seq<Hit>, e: seq<Hit>, list: seq<Hit>, other: seq<Hit>, r: string -> string,
                                           ids: set<string>, weight: real, rrfK: int, n: nat)
    requires e == Renamed(d, r) && other == Renamed(list, r) && Within(d, ids) && Within(list, ids) && OneToOne(r, ids)
    requires n <= |list| && NeverZero(rrfK, n)
    ensures AddRanks(e, other, weight, rrfK, n) == Renamed(AddRanks(d, list, weight, rrfK, n), r)
    ensures Within(AddRanks(d, list, weight, rrfK, n), ids)
  {
    if n > 0 {
      AddRanksRenamed(d, e, list, other, r, ids, weight, rrfK, n - 1);
      PutRenamed(AddRanks(d, list, weight, rrfK, n - 1), AddRanks(e, other, weight, rrfK, n - 1), r, ids,
                 list[n - 1].id, Share(weight, rrfK, n));
    }
  }

  lemma RenamedSnoc(d: seq<Hit>, h: Hit, r: string -> string)
    ensures Renamed(d + [h], r) == Renamed(d, r) + [RenamedHit(h, r)]
  {
  }

  lemma PositiveStep(d: seq<Hit>, e: seq<Hit>, r: string -> string, ids: set<string>, n: nat)
    requires e == Renamed(d, r) && Within(d, ids) && 0 < n <= |d|
    requires Positive(e, n - 1) == Renamed(Positive(d, n - 1), r) && Within(Positive(d, n - 1), ids)
    ensures Positive(e, n) == Renamed(Positive(d, n), r) && Within(Positive(d, n), ids)
  {
    assert e[n - 1] == RenamedHit(d[n - 1], r) && d[n - 1].id in ids;
    RenamedSnoc(Positive(d, n - 1), d[n - 1], r);
  }

  lemma {:induction false} PositiveRenamed(d: seq<Hit>, e: seq<Hit>, r: string -> string, ids: set<string>, n: nat)
    requires e == Renamed(d, r) && Within(d, ids) && n <= |d|
    ensures Positive(e, n) == Renamed(Positive(d, n), r) && Within(Positive(d, n), ids)
  {
    if n > 0 {
      PositiveRenamed(d, e, r, ids, n - 1);
      PositiveStep(d, e, r, ids, n);
    }
  }

  lemma AddedRenamed(d: seq<Hit>, e: seq<Hit>, list: seq<Hit>, other: seq<Hit>, r: string -> string, ids: set<string>, weight: real,
                     rrfK: int, after: seq<Hit>, otherAfter: seq<Hit>)
    requires e == Renamed(d, r) && other == Renamed(list, r) && Within(d, ids) && Within(list, ids) && OneToOne(r, ids)
    requires NeverZero(rrfK, |list|) && after == AddRanks(d, list, weight, rrfK, |list|)
    requires otherAfter == AddRanks(e, other, weight, rrfK, |other|)
    ensures otherAfter == Renamed(after, r) && Within(after, ids)
  {
    AddRanksRenamed(d, e, list, other, r, ids, weight, rrfK, |list|);
  }

  lemma FuseRenamed(dense: seq<Hit>, bm25: seq<Hit>, d: seq<Hit>, b: seq<Hit>, r: string -> string, ids: set<string>, rrfK: int,
                    weight: real)
    requires NeverZero(rrfK, |dense|) && NeverZero(rrfK, |bm25|) && d == Renamed(dense, r) && b == Renamed(bm25, r)
    requires Within(dense, ids) && Within(bm25, ids) && OneToOne(r, ids)
    ensures Fuse(d, b, rrfK, weight) == Renamed(Fuse(dense, bm25, rrfK, weight), r)
    ensures Within(Fuse(dense, bm25, rrfK, weight), ids)
  {
    var first, other := AddRanks([], dense, weight, rrfK, |dense|), AddRanks([], d, weight, rrfK, |d|);
    AddedRenamed([], [], dense, d, r, ids, weight, rrfK, first, other);
    var both, otherBoth := AddRanks(first, bm25, 1.0 - weight, rrfK, |bm25|), AddRanks(other, b, 1.0 - weight, rrfK, |b|);
    AddedRenamed(first, other, bm25, b, r, ids, 1.0 - weight, rrfK, both, otherBoth);
    PositiveRenamed(both, otherBoth, r, ids, |both|);
  }

  // ----- sorting -----

  /** Where scores tie, the new names sort as the old ones. */
  ghost predicate KeepsTies(d: seq<Hit>, r: string -> string) {
    forall h, k :: h in d && k in d && h.score == k.score ==> AlikeSorted(h.id, k.id, r)
  }

  predicate AlikeSorted(x: string, y: string, r: string -> string) {
    StringLess()(r(x), r(y)) == StringLess()(x, y)
  }

  lemma InRenamed(d: seq<Hit>, r: string -> string, h: Hit)
    ensures h in Renamed(d, r) <==> exists k :: k in d && RenamedHit(k, r) == h
  {
    var e := Renamed(d, r);
    if h in e {
      var i :| 0 <= i < |e| && e[i] == h;
      assert d[i] in d && RenamedHit(d[i], r) == h;
    }
    if k :| k in d && RenamedHit(k, r) == h {
      var i :| 0 <= i < |d| && d[i] == k;
      assert e[i] == h;
    }
  }

  /** Renaming rearrangements of a dictionary gives rearrangements. */
  lemma RenamedMembers(d: seq<Hit>, s: seq<Hit>, r: string -> string, ids: set<string>)
    requires IsDict(d) && Within(d, ids) && OneToOne(r, ids) && IsDict(s) && multiset(s) == multiset(d)
    ensures multiset(Renamed(s, r)) == multiset(Renamed(d, r)) && Within(s, ids)
  {
    forall h ensures h in s <==> h in d {
      SameMembers(s, d, h);
    }
    forall i | 0 <= i < |s| ensures s[i].id in ids {
      assert s[i] in d;
    }
    RenamedIsDict(d, r, ids);
    RenamedIsDict(s, r, ids);
    DictIsDistinct(Renamed(d, r));
    DictIsDistinct(Renamed(s, r));
    forall h ensures h in Renamed(s, r) <==> h in Renamed(d, r) {
      InRenamed(s, r, h);
      InRenamed(d, r, h);
    }
    SameMultiset(Renamed(s, r), Renamed(d, r));
  }

  lemma RenamedSorted(s: seq<Hit>, r: string -> string)
    requires Sorted(s, HitBefore()) && KeepsTies(s, r)
    ensures Sorted(Renamed(s, r), HitBefore())
  {
    var e := Renamed(s, r);
    forall i, j | 0 <= i < j < |e| ensures !HitBefore()(e[j], e[i]) {
      assert !HitBefore()(s[j], s[i]);
      assert s[i] in s && s[j] in s;
      assert s[i].score == s[j].score ==> AlikeSorted(s[j].id, s[i].id, r);
    }
  }

  lemma TiesKept(s: seq<Hit>, r: string -> string, i: nat, j: nat)
    requires IsDict(s) && Sorted(s, HitBefore()) && Sorted(Renamed(s, r), HitBefore()) && IsDict(Renamed(s, r))
    requires i < j < |s| && s[i].score == s[j].score
    ensures AlikeSorted(s[i].id, s[j].id, r) && AlikeSorted(s[j].id, s[i].id, r)
  {
    var e, less := Renamed(s, r), StringLess();
    StringsAreOrdered();
    assert !HitBefore()(s[j], s[i]) && !HitBefore()(e[j], e[i]);
    assert Decides(less, s[i].id, s[j].id) && Decides(less, e[i].id, e[j].id);
  }

  /** Sorting commutes with a renaming exactly when the renaming sorts ties alike. */
  lemma SortRenamedIff(d: seq<Hit>, r: string -> string, ids: set<string>)
    requires IsDict(d) && Within(d, ids) && OneToOne(r, ids)
    ensures Sort(Renamed(d, r), HitBefore()) == Renamed(Sort(d, HitBefore()), r) <==> KeepsTies(d, r)
    ensures IsDict(Sort(d, HitBefore())) && Within(Sort(d, HitBefore()), ids)
  {
    var s := Sort(d, HitBefore());
    RankedIsDict(d);
    RenamedMembers(d, s, r, ids);
    forall h ensures h in s <==> h in d {
      SameMembers(s, d, h);
    }
    if KeepsTies(d, r) {
      SortOfRenamed(d, s, r);
    }
    if Sort(Renamed(d, r), HitBefore()) == Renamed(s, r) {
      RenamedIsDict(d, r, ids);
      RankedIsDict(Renamed(d, r));
      AllTiesKept(s, r);
      assert KeepsTies(d, r);
    }
  }

  lemma SortOfRenamed(d: seq<Hit>, s: seq<Hit>, r: string -> string)
    requires Sorted(s, HitBefore()) && multiset(Renamed(s, r)) == multiset(Renamed(d, r))
    requires KeepsTies(s, r)
    ensures Sort(Renamed(d, r), HitBefore()) == Renamed(s, r)
  {
    HitsAreOrdered();
    RenamedSorted(s, r);
    SortOfSorted(Renamed(s, r), Renamed(d, r), HitBefore());
  }

  lemma AllTiesKept(s: seq<Hit>, r: string -> string)
    requires IsDict(s) && Sorted(s, HitBefore()) && Sorted(Renamed(s, r), HitBefore()) && IsDict(Renamed(s, r))
    ensures KeepsTies(s, r)
  {
    forall h, k | h in s && k in s && h.score == k.score ensures AlikeSorted(h.id, k.id, r) {
      var i :| 0 <= i < |s| && s[i] == h;
      var j :| 0 <= j < |s| && s[j] == k;
      if i < j {
        TiesKept(s, r, i, j);
      } else if j < i {
        TiesKept(s, r, j, i);
      } else {
        NotBeforeItself(h.id);
        NotBeforeItself(r(h.id));
      }
    }
  }

  lemma NotBeforeItself(x: string)
    ensures !StringLess()(x, x)
  {
    StringsAreOrdered();
    assert Decides(StringLess(), x, x);
  }

  // ----- the pipeline -----

  ghost predicate NoTies(d: seq<Hit>) {
    forall i, j :: 0 <= i < j < |d| ==> d[i].score != d[j].score
  }

  lemma NoTiesAreKept(d: seq<Hit>, r: string -> string)
    requires NoTies(d)
    ensures KeepsTies(d, r)
  {
    forall h, k | h in d && k in d && h.score == k.score ensures AlikeSorted(h.id, k.id, r) {
      var i :| 0 <= i < |d| && d[i] == h;
      var j :| 0 <= j < |d| && d[j] == k;
      assert i == j;
      NotBeforeItself(h.id);
      NotBeforeItself(r(h.id));
    }
  }

  lemma TakeRenamed(d: seq<Hit>, r: string -> string, ids: set<string>, k: int)
    requires Within(d, ids)
    ensures PyTake(Renamed(d, r), k) == Renamed(PyTake(d, k), r) && Within(PyTake(d, k), ids)
  {
  }

  lemma SortRenamed(d: seq<Hit>, r: string -> string, ids: set<string>)
    requires IsDict(d) && Within(d, ids) && OneToOne(r, ids) && NoTies(d)
    ensures Sort(Renamed(d, r), HitBefore()) == Renamed(Sort(d, HitBefore()), r)
    ensures IsDict(Sort(d, HitBefore())) && Within(Sort(d, HitBefore()), ids)
  {
    NoTiesAreKept(d, r);
    SortRenamedIff(d, r, ids);
  }

  lemma OverRenamed(d: seq<Hit>, r: string -> string, ids: set<string>, topN: int)
    requires IsDict(d) && Within(d, ids) && OneToOne(r, ids) && NoTies(d)
    ensures Over(Renamed(d, r), topN) == Renamed(Over(d, topN), r)
    ensures IsDict(Over(d, topN)) && Within(Over(d, topN), ids)
  {
    SortRenamed(d, r, ids);
    TakeRenamed(Sort(d, HitBefore()), r, ids, topN);
    OverIsDict(d, topN);
  }

  lemma TopRankRenamed(scored: seq<Hit>, r: string -> string, ids: set<string>, topK: int)
    requires IsDict(scored) && Within(scored, ids) && OneToOne(r, ids) && NoTies(Positive(scored, |scored|))
    ensures TopRank(Renamed(scored, r), topK) == Renamed(TopRank(scored, topK), r)
    ensures IsDict(TopRank(scored, topK)) && Within(TopRank(scored, topK), ids)
  {
    PositiveIsDict(scored, |scored|);
    PositiveRenamed(scored, Renamed(scored, r), r, ids, |scored|);
    OverRenamed(Positive(scored, |scored|), r, ids, topK);
  }

  lemma {:induction false} MaxScoreRenamed(over: seq<Hit>, r: string -> string, n: nat)
    requires n <= |over|
    ensures MaxScore(Renamed(over, r), n) == MaxScore(over, n)
  {
    if n > 1 {
      MaxScoreRenamed(over, r, n - 1);
    }
  }

  /** The reranker scores a chunk alike under both names. */
  ghost predicate RerankedAlike(ids: set<string>, r: string -> string, rerank: string -> real, other: string -> real) {
    forall x :: x in ids ==> other(r(x)) == rerank(x)
  }

  lemma {:induction false} BlendedRenamed(over: seq<Hit>, r: string -> string, ids: set<string>, max: real, rerank: string -> real,
                                          other: string -> real, n: nat)
    requires n <= |over| && Within(over, ids) && RerankedAlike(ids, r, rerank, other)
    ensures Blended(Renamed(over, r), max, other, n) == RenamedTo(Blended(over, max, rerank, |over|), r, n)
  {
    if n > 0 {
      BlendedRenamed(over, r, ids, max, rerank, other, n - 1);
      assert over[n - 1].id in ids;
    }
  }

  lemma RerankRenamed(over: seq<Hit>, r: string -> string, ids: set<string>, rerank: string -> real, other: string -> real)
    requires IsDict(over) && Within(over, ids) && OneToOne(r, ids) && RerankedAlike(ids, r, rerank, other)
    requires NoTies(Blended(over, MaxScore(over, |over|), rerank, |over|))
    ensures Rerank(Renamed(over, r), other) == Renamed(Rerank(over, rerank), r) && Within(Rerank(over, rerank), ids)
  {
    var blended := Blended(over, MaxScore(over, |over|), rerank, |over|);
    MaxScoreRenamed(over, r, |over|);
    BlendedRenamed(over, r, ids, MaxScore(over, |over|), rerank, other, |over|);
    BlendedIn(over, rerank, blended, Hit("", 0.0));
    SortRenamed(blended, r, ids);
  }

  function RenamedRow(row: Row, r: string -> string): Row {
    row.(id := r(row.id))
  }

  /** `others` are the rows under the new names. */
  ghost predicate RowsRenamed(rows: seq<Row>, others: seq<Row>, r: string -> string, ids: set<string>) {
    |others| == |rows| && forall i :: 0 <= i < |rows| ==> rows[i].id in ids && others[i] == RenamedRow(rows[i], r)
  }

  lemma RowRenamed(h: Hit, over: seq<Hit>, r: string -> string, ids: set<string>, rerank: string -> real, other: string -> real, rank: nat)
    requires h.id in ids && Within(over, ids) && OneToOne(r, ids) && RerankedAlike(ids, r, rerank, other)
    ensures MakeRow(RenamedHit(h, r), Renamed(over, r), other, rank) == RenamedRow(MakeRow(h, over, rerank, rank), r)
  {
    PositionRenamed(over, Renamed(over, r), r, ids, h.id, |over|);
  }

  lemma AnsweredRenamed(over: seq<Hit>, r: string -> string, ids: set<string>, rerank: string -> real, other: string -> real, finalN: int)
    requires IsDict(over) && Within(over, ids) && OneToOne(r, ids) && RerankedAlike(ids, r, rerank, other)
    requires NoTies(Blended(over, MaxScore(over, |over|), rerank, |over|))
    ensures RowsRenamed(Answered(over, rerank, finalN), Answered(Renamed(over, r), other, finalN), r, ids)
  {
    var kept := PyTake(Rerank(over, rerank), finalN);
    RerankRenamed(over, r, ids, rerank, other);
    TakeRenamed(Rerank(over, rerank), r, ids, finalN);
    forall i | 0 <= i < |kept|
      ensures MakeRow(Renamed(kept, r)[i], Renamed(over, r), other, i + 1) == RenamedRow(MakeRow(kept[i], over, rerank, i + 1), r)
    {
      RowRenamed(kept[i], over, r, ids, rerank, other, i + 1);
    }
  }

  /** No two scores tie where the pipeline sorts: in the two lists, after fusion, after reranking. */
  ghost predicate Untied(dense: seq<Hit>, bm25: seq<Hit>, knobs: Knobs, mode: string, rerank: string -> real) {
    var d, b := TopRank(dense, knobs.denseTopK), TopRank(bm25, knobs.bm25TopK);
    && NoTies(Positive(dense, |dense|)) && NoTies(Positive(bm25, |bm25|))
    && (NeverZero(knobs.rrfK, |d|) && NeverZero(knobs.rrfK, |b|) ==>
          var fused := Fuse(d, b, knobs.rrfK, DenseWeight(mode, knobs.fusionWeight));
          UntiedAfter(fused, Over(fused, knobs.rerankTopN), rerank))
  }

  ghost predicate UntiedAfter(fused: seq<Hit>, over: seq<Hit>, rerank: string -> real) {
    NoTies(fused) && NoTies(Blended(over, MaxScore(over, |over|), rerank, |over|))
  }

  lemma FusedRenamed(d: seq<Hit>, b: seq<Hit>, r: string -> string, ids: set<string>, rrfK: int, weight: real, topN: int,
                     rerank: string -> real, other: string -> real, finalN: int)
    requires NeverZero(rrfK, |d|) && NeverZero(rrfK, |b|)
    requires Within(d, ids) && Within(b, ids) && OneToOne(r, ids) && RerankedAlike(ids, r, rerank, other)
    requires var fused := Fuse(d, b, rrfK, weight); UntiedAfter(fused, Over(fused, topN), rerank)
    ensures RowsRenamed(Answered(Over(Fuse(d, b, rrfK, weight), topN), rerank, finalN),
                        Answered(Over(Fuse(Renamed(d, r), Renamed(b, r), rrfK, weight), topN), other, finalN), r, ids)
  {
    var fused := Fuse(d, b, rrfK, weight);
    FuseRenamed(d, b, Renamed(d, r), Renamed(b, r), r, ids, rrfK, weight);
    FuseIsDict(d, b, rrfK, weight);
    OverRenamed(fused, r, ids, topN);
    AnsweredRenamed(Over(fused, topN), r, ids, rerank, other, finalN);
  }

  ghost predicate AnswerRenamed(a: Answer, b: Answer, r: string -> string, ids: set<string>) {
    if a.Answer? then b.Answer? && RowsRenamed(a.rows, b.rows, r, ids) else b.ZeroDivision?
  }

  /** Renaming all chunks one to one renames the chunks of the answer and changes nothing else,
      when no two scores tie. */
  lemma RenamingIsInvisible(dense: seq<Hit>, bm25: seq<Hit>, r: string -> string, ids: set<string>, knobs: Knobs, mode: string,
                            rerank: string -> real, other: string -> real)
    requires IsDict(dense) && IsDict(bm25) && Within(dense, ids) && Within(bm25, ids) && OneToOne(r, ids)
    requires RerankedAlike(ids, r, rerank, other) && Untied(dense, bm25, knobs, mode, rerank)
    ensures AnswerRenamed(AnswerOf(dense, bm25, knobs, mode, rerank),
                          AnswerOf(Renamed(dense, r), Renamed(bm25, r), knobs, mode, other), r, ids)
  {
    var d, b := TopRank(dense, knobs.denseTopK), TopRank(bm25, knobs.bm25TopK);
    TopRankRenamed(dense, r, ids, knobs.denseTopK);
    TopRankRenamed(bm25, r, ids, knobs.bm25TopK);
    if NeverZero(knobs.rrfK, |d|) && NeverZero(knobs.rrfK, |b|) {
      FusedRenamed(d, b, r, ids, knobs.rrfK, DenseWeight(mode, knobs.fusionWeight), knobs.rerankTopN, rerank, other, knobs.finalN);
    }
  }
}
