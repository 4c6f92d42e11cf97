/** Reciprocal rank fusion of the dense and the sparse ranking. */
module Fusion {
  import opened Ordering
  import opened Hits

  datatype Outcome = Fused(scores: seq<Hit>) | DivisionByZero

  /** `dense_rank` and `bm25_rank` after scoring: the positive scores, best first, cut to `topK`. */
  function TopRank(scored: seq<Hit>, topK: int): (r: seq<Hit>) {
    PyTake(Sort(Positive(scored, |scored|), HitBefore()), topK)
  }

  /** The kept entries are positive entries of the scored list in falling order, and a
      positive entry left out comes before none of them. */
  lemma TopRankIsBest(scored: seq<Hit>, topK: int, h: Hit)
    requires IsDict(scored)
    ensures IsDict(TopRank(scored, topK)) && Sorted(TopRank(scored, topK), HitBefore())
    ensures h in TopRank(scored, topK) ==> h in scored && h.score > 0.0
    ensures h in scored && h.score > 0.0 && h !in TopRank(scored, topK) ==>
              forall i :: 0 <= i < |TopRank(scored, topK)| ==> !HitBefore()(h, TopRank(scored, topK)[i])
  {
    var kept := Positive(scored, |scored|);
    var ranked := Sort(kept, HitBefore());
    PositiveIsDict(scored, |scored|);
    RankedIsDict(kept);
    InPositive(scored, |scored|, h);
    SameMembers(kept, ranked, h);
    RestComesAfter(ranked, TopRank(scored, topK), h);
  }

  lemma RestComesAfter(ranked: seq<Hit>, top: seq<Hit>, h: Hit)
    requires Sorted(ranked, HitBefore()) && top <= ranked
    ensures h in ranked && h !in top ==> forall i :: 0 <= i < |top| ==> !HitBefore()(h, top[i])
    ensures h in top ==> h in ranked
  {
    if h in ranked && h !in top {
      var k :| 0 <= k < |ranked| && ranked[k] == h;
      assert k >= |top|;
    }
  }

  /** A clamp of the dense weight, overridden by the single-list modes. */
  function DenseWeight(mode: string, weight: real): (w: real)
    ensures 0.0 <= w <= 1.0
  {
    if mode == "dense" then 1.0
    else if mode == "bm25" then 0.0
    else if weight < 0.0 then 0.0 else if weight > 1.0 then 1.0 else weight
  }

  /** No rank up to `n` makes `rrfK + rank` zero. */
  predicate NeverZero(rrfK: int, n: nat) {
    rrfK >= 0 || rrfK + n < 0
  }

  function Share(weight: real, rrfK: int, rank: nat): real
    requires rrfK + rank != 0
  {
    weight / (rrfK + rank) as real
  }

  /** `scores[id] = scores.get(id, 0.0) + amount` */
  function AddTo(d: seq<Hit>, id: string, amount: real): seq<Hit> {
    Put(d, id, Get(d, id, 0.0) + amount)
  }

  lemma AddToFacts(d: seq<Hit>, id: string, amount: real, x: string)
    requires IsDict(d)
    ensures IsDict(AddTo(d, id, amount))
    ensures Get(AddTo(d, id, amount), x, 0.0) == Get(d, x, 0.0) + if x == id then amount else 0.0
  {
    PutIsDict(d, id, Get(d, id, 0.0) + amount);
    GetOfPut(d, id, Get(d, id, 0.0) + amount, x, 0.0);
  }

  function AddRanks(d: seq<Hit>, list: seq<Hit>, weight: real, rrfK: int, n: nat): seq<Hit>
    requires n <= |list| && NeverZero(rrfK, n)
  {
    if n == 0 then d
    else AddTo(AddRanks(d, list, weight, rrfK, n - 1), list[n - 1].id, Share(weight, rrfK, n))
  }

  /** `rrf_fuse` where no denominator is zero. */
  function Fuse(dense: seq<Hit>, bm25: seq<Hit>, rrfK: int, weight: real): seq<Hit>
    requires NeverZero(rrfK, |dense|) && NeverZero(rrfK, |bm25|)
  {
    var first := AddRanks([], dense, weight, rrfK, |dense|);
    var both := AddRanks(first, bm25, 1.0 - weight, rrfK, |bm25|);
    Positive(both, |both|)
  }

  /** All that one list contributes to `id` by its first `n` ranks. */
  function Credit(list: seq<Hit>, id: string, weight: real, rrfK: int, n: nat): real
    requires n <= |list| && NeverZero(rrfK, n)
  {
    if n == 0 then 0.0
    else Credit(list, id, weight, rrfK, n - 1) + if list[n - 1].id == id then Share(weight, rrfK, n) else 0.0
  }

  function Total(dense: seq<Hit>, bm25: seq<Hit>, rrfK: int, weight: real, id: string): real
    requires NeverZero(rrfK, |dense|) && NeverZero(rrfK, |bm25|)
  {
    Credit(dense, id, weight, rrfK, |dense|) + Credit(bm25, id, 1.0 - weight, rrfK, |bm25|)
  }

  lemma {:induction false} AddRanksIsDict(d: seq<Hit>, list: seq<Hit>, weight: real, rrfK: int, n: nat)
    requires n <= |list| && NeverZero(rrfK, n) && IsDict(d)
    ensures IsDict(AddRanks(d, list, weight, rrfK, n))
  {
    if n > 0 {
      AddRanksIsDict(d, list, weight, rrfK, n - 1);
      AddToFacts(AddRanks(d, list, weight, rrfK, n - 1), list[n - 1].id, Share(weight, rrfK, n), "");
    }
  }

  lemma {:induction false} AddRanksCredits(d: seq<Hit>, list: seq<Hit>, weight: real, rrfK: int, n: nat, id: string)
    requires n <= |list| && NeverZero(rrfK, n) && IsDict(d)
    ensures Get(AddRanks(d, list, weight, rrfK, n), id, 0.0) == Get(d, id, 0.0) + Credit(list, id, weight, rrfK, n)
  {
    if n > 0 {
      AddRanksCredits(d, list, weight, rrfK, n - 1, id);
      AddRanksIsDict(d, list, weight, rrfK, n - 1);
      AddToFacts(AddRanks(d, list, weight, rrfK, n - 1), list[n - 1].id, Share(weight, rrfK, n), id);
    }
  }

  lemma FirstCredits(list: seq<Hit>, weight: real, rrfK: int, id: string, after: seq<Hit>)
    requires NeverZero(rrfK, |list|) && after == AddRanks([], list, weight, rrfK, |list|)
    ensures IsDict(after) && Get(after, id, 0.0) == Credit(list, id, weight, rrfK, |list|)
  {
    AddRanksIsDict([], list, weight, rrfK, |list|);
    AddRanksCredits([], list, weight, rrfK, |list|, id);
  }

  lemma SecondCredits(before: seq<Hit>, list: seq<Hit>, weight: real, rrfK: int, id: string, after: seq<Hit>)
    requires NeverZero(rrfK, |list|) && IsDict(before) && after == AddRanks(before, list, weight, rrfK, |list|)
    ensures IsDict(after) && Get(after, id, 0.0) == Get(before, id, 0.0) + Credit(list, id, weight, rrfK, |list|)
  {
    AddRanksIsDict(before, list, weight, rrfK, |list|);
    AddRanksCredits(before, list, weight, rrfK, |list|, id);
  }

  lemma BothCredits(dense: seq<Hit>, bm25: seq<Hit>, rrfK: int, weight: real, id: string, both: seq<Hit>)
    requires NeverZero(rrfK, |dense|) && NeverZero(rrfK, |bm25|)
    requires both == AddRanks(AddRanks([], dense, weight, rrfK, |dense|), bm25, 1.0 - weight, rrfK, |bm25|)
    ensures IsDict(both) && Get(both, id, 0.0) == Total(dense, bm25, rrfK, weight, id)
  {
    var first := AddRanks([], dense, weight, rrfK, |dense|);
    FirstCredits(dense, weight, rrfK, id, first);
    SecondCredits(first, bm25, 1.0 - weight, rrfK, id, both);
  }

  /** The fused scores are the totals of both lists' credits, kept where positive: one
      entry an identifier, whatever repeats in the lists. */
  lemma FusedTotals(dense: seq<Hit>, bm25: seq<Hit>, rrfK: int, weight: real, id: string)
    requires NeverZero(rrfK, |dense|) && NeverZero(rrfK, |bm25|)
    ensures var fused, total := Fuse(dense, bm25, rrfK, weight), Total(dense, bm25, rrfK, weight, id);
            && IsDict(fused)
            && (Has(fused, id) <==> total > 0.0)
            && Get(fused, id, 0.0) == if total > 0.0 then total else 0.0
  {
    var both := AddRanks(AddRanks([], dense, weight, rrfK, |dense|), bm25, 1.0 - weight, rrfK, |bm25|);
    BothCredits(dense, bm25, rrfK, weight, id, both);
    KeptEntry(both, id);
  }

  lemma KeptEntry(d: seq<Hit>, id: string)
    requires IsDict(d)
    ensures var kept := Positive(d, |d|);
            && IsDict(kept)
            && (Has(kept, id) <==> Get(d, id, 0.0) > 0.0)
            && Get(kept, id, 0.0) == if Get(d, id, 0.0) > 0.0 then Get(d, id, 0.0) else 0.0
  {
    var kept := Positive(d, |d|);
    PositiveIsDict(d, |d|);
    if Get(d, id, 0.0) > 0.0 {
      var h := Hit(id, Get(d, id, 0.0));
      InDict(d, h);
      InPositive(d, |d|, h);
      InDict(kept, h);
    } else if Has(kept, id) {
      var h := kept[Position(kept, id, |kept|)];
      InPositive(d, |d|, h);
      InDict(d, h);
    }
  }

  method AddList(d: seq<Hit>, list: seq<Hit>, weight: real, rrfK: int) returns (r: Outcome)
    ensures r == if NeverZero(rrfK, |list|) then Fused(AddRanks(d, list, weight, rrfK, |list|)) else DivisionByZero
  {
    var scores := d;
    for n := 0 to |list|
      invariant NeverZero(rrfK, n) && scores == AddRanks(d, list, weight, rrfK, n)
    {
      if rrfK + (n + 1) == 0 {
        return DivisionByZero;
      }
      scores := AddTo(scores, list[n].id, Share(weight, rrfK, n + 1));
    }
    return Fused(scores);
  }

  method RrfFuse(dense: seq<Hit>, bm25: seq<Hit>, rrfK: int, fusionWeight: real, mode: string) returns (r: Outcome)
    ensures r.DivisionByZero? <==> !(NeverZero(rrfK, |dense|) && NeverZero(rrfK, |bm25|))
    ensures r.Fused? ==> r.scores == Fuse(dense, bm25, rrfK, DenseWeight(mode, fusionWeight))
  {
    var weight := DenseWeight(mode, fusionWeight);
    r := AddList([], dense, weight, rrfK);
    if r.Fused? {
      r := AddList(r.scores, bm25, 1.0 - weight, rrfK);
      if r.Fused? {
        r := Fused(Positive(r.scores, |r.scores|));
      }
    }
  }

  // ----- non-negative rrf_k and lists without repeated identifiers -----

  lemma {:induction false} CreditOfRanked(list: seq<Hit>, id: string, weight: real, rrfK: nat, n: nat)
    requires IsDict(list) && n <= |list|
    ensures var p := Position(list, id, n);
            Credit(list, id, weight, rrfK, n) == if p < |list| then Share(weight, rrfK, p + 1) else 0.0
  {
    if n > 0 {
      CreditOfRanked(list, id, weight, rrfK, n - 1);
    }
  }

  lemma Sign(x: real, c: real)
    requires c > 0.0
    ensures x * c >= 0.0 ==> x >= 0.0
    ensures x > 0.0 ==> x * c > 0.0
  {
  }

  lemma Difference(x: real, y: real, c: real)
    ensures (x - y) * c == x * c - y * c
  {
  }

  lemma Commutes(x: real, y: real)
    ensures x * y == y * x
  {
  }

  lemma StrictSign(x: real, c: real)
    requires c > 0.0
    ensures x >= 0.0 <==> x * c >= 0.0
    ensures x > 0.0 <==> x * c > 0.0
  {
    Sign(x, c);
    if x < 0.0 {
      Sign(-x, c);
      assert -x * c == -(x * c);
    }
    if x == 0.0 {
      assert x * c == 0.0;
    }
  }

  lemma Order(x: real, y: real, c: real, xc: real, yc: real)
    requires c > 0.0 && xc == x * c && yc == y * c
    ensures x <= y <==> xc <= yc
    ensures x < y <==> xc < yc
  {
    StrictSign(y - x, c);
    Difference(y, x, c);
  }

  lemma Gap(x: real, y: real, a: real, b: real)
    requires 0.0 < a <= b && x >= 0.0 && x * a == y * b
    ensures y <= x && (x > 0.0 && a < b ==> y < x)
  {
    Order(y, x, b, y * b, x * b);
    if x > 0.0 {
      Commutes(a, x);
      Commutes(b, x);
      Order(a, b, x, x * a, x * b);
    }
  }

  lemma QuotientsFall(weight: real, a: real, b: real)
    requires 0.0 < a <= b && weight >= 0.0
    ensures 0.0 <= weight / b <= weight / a
    ensures weight > 0.0 ==> 0.0 < weight / b
    ensures weight > 0.0 && a < b ==> weight / b < weight / a
  {
    var x, y := weight / a, weight / b;
    assert x * a == weight && y * b == weight;
    Sign(x, a);
    Sign(y, b);
    Gap(x, y, a, b);
  }

  lemma ShareShrinks(weight: real, rrfK: nat, p: nat, q: nat)
    requires 0 < p <= q && weight >= 0.0
    ensures 0.0 <= Share(weight, rrfK, q) <= Share(weight, rrfK, p)
  {
    QuotientsFall(weight, (rrfK + p) as real, (rrfK + q) as real);
  }

  lemma CreditBound(list: seq<Hit>, id: string, weight: real, rrfK: nat)
    requires IsDict(list) && weight >= 0.0
    ensures 0.0 <= Credit(list, id, weight, rrfK, |list|) <= Share(weight, rrfK, 1)
  {
    CreditOfRanked(list, id, weight, rrfK, |list|);
    var p := Position(list, id, |list|);
    ShareShrinks(weight, rrfK, 1, if p < |list| then p + 1 else 1);
  }

  lemma SharesAdd(v: real, w: real, rrfK: nat, p: nat)
    requires p > 0
    ensures Share(v, rrfK, p) + Share(w, rrfK, p) == Share(v + w, rrfK, p)
  {
  }

  /** Every fused score lies in `(0, 1 / (rrf_k + 1)]`. */
  lemma FusedScoresBounded(dense: seq<Hit>, bm25: seq<Hit>, rrfK: nat, weight: real, h: Hit)
    requires IsDict(dense) && IsDict(bm25) && 0.0 <= weight <= 1.0
    requires h in Fuse(dense, bm25, rrfK, weight)
    ensures 0.0 < h.score <= 1.0 / (rrfK + 1) as real
  {
    FusedTotals(dense, bm25, rrfK, weight, h.id);
    InDict(Fuse(dense, bm25, rrfK, weight), h);
    CreditBound(dense, h.id, weight, rrfK);
    CreditBound(bm25, h.id, 1.0 - weight, rrfK);
    SharesAdd(weight, 1.0 - weight, rrfK, 1);
  }

  /** `a` is ranked no worse than `b`; being absent is the worst rank. */
  predicate NoWorse(list: seq<Hit>, a: string, b: string) {
    Position(list, a, |list|) <= Position(list, b, |list|)
  }

  lemma CreditMonotone(list: seq<Hit>, a: string, b: string, weight: real, rrfK: nat)
    requires IsDict(list) && weight >= 0.0 && NoWorse(list, a, b)
    ensures Credit(list, b, weight, rrfK, |list|) <= Credit(list, a, weight, rrfK, |list|)
  {
    CreditOfRanked(list, a, weight, rrfK, |list|);
    CreditOfRanked(list, b, weight, rrfK, |list|);
    var p, q := Position(list, a, |list|), Position(list, b, |list|);
    ShareShrinks(weight, rrfK, p + 1, q + 1);
  }

  /** A chunk ranked no worse than another in both lists never scores lower. */
  lemma FusionIsMonotone(dense: seq<Hit>, bm25: seq<Hit>, rrfK: nat, weight: real, a: string, b: string)
    requires IsDict(dense) && IsDict(bm25) && 0.0 <= weight <= 1.0
    requires NoWorse(dense, a, b) && NoWorse(bm25, a, b)
    ensures var fused := Fuse(dense, bm25, rrfK, weight);
            Get(fused, b, 0.0) <= Get(fused, a, 0.0) && (Has(fused, b) ==> Has(fused, a))
  {
    FusedTotals(dense, bm25, rrfK, weight, a);
    FusedTotals(dense, bm25, rrfK, weight, b);
    CreditMonotone(dense, a, b, weight, rrfK);
    CreditMonotone(bm25, a, b, 1.0 - weight, rrfK);
  }

  // ----- the single-list modes -----

  function Reciprocals(list: seq<Hit>, rrfK: nat, n: nat): (r: seq<Hit>)
    requires n <= |list|
    ensures |r| == n
    ensures forall i :: 0 <= i < n ==> r[i] == Hit(list[i].id, Share(1.0, rrfK, i + 1))
  {
    if n == 0 then [] else Reciprocals(list, rrfK, n - 1) + [Hit(list[n - 1].id, Share(1.0, rrfK, n))]
  }

  lemma SharesFall(rrfK: nat, p: nat, q: nat)
    requires 0 < p < q
    ensures 0.0 < Share(1.0, rrfK, q) < Share(1.0, rrfK, p)
  {
    QuotientsFall(1.0, (rrfK + p) as real, (rrfK + q) as real);
  }

  lemma ReciprocalsSorted(list: seq<Hit>, rrfK: nat)
    requires IsDict(list)
    ensures IsDict(Reciprocals(list, rrfK, |list|))
    ensures Sorted(Reciprocals(list, rrfK, |list|), HitBefore())
  {
    var r := Reciprocals(list, rrfK, |list|);
    forall i, j | 0 <= i < j < |r| ensures r[i].id != r[j].id && !HitBefore()(r[j], r[i]) {
      SharesFall(rrfK, i + 1, j + 1);
    }
  }

  lemma ReciprocalsCredit(list: seq<Hit>, rrfK: nat, id: string)
    requires IsDict(list)
    ensures var r := Reciprocals(list, rrfK, |list|);
            && Get(r, id, 0.0) == Credit(list, id, 1.0, rrfK, |list|)
            && (Has(r, id) <==> Credit(list, id, 1.0, rrfK, |list|) > 0.0)
  {
    var r := Reciprocals(list, rrfK, |list|);
    ReciprocalsSorted(list, rrfK);
    CreditOfRanked(list, id, 1.0, rrfK, |list|);
    var p := Position(list, id, |list|);
    if p < |list| {
      Found(r, p);
      SharesFall(rrfK, p + 1, p + 2);
    } else if Has(r, id) {
      PositionMisses(list, id, |list|, Position(r, id, |r|));
    }
  }

  lemma NoWeightNoCredit(list: seq<Hit>, rrfK: nat, id: string)
    requires IsDict(list)
    ensures Credit(list, id, 0.0, rrfK, |list|) == 0.0
  {
    CreditBound(list, id, 0.0, rrfK);
  }

  /** In dense mode the ranking of the fused scores lists the dense ranking, in its order. */
  lemma DenseModeKeepsOrder(dense: seq<Hit>, bm25: seq<Hit>, rrfK: nat, fusionWeight: real)
    requires IsDict(dense) && IsDict(bm25)
    ensures Sort(Fuse(dense, bm25, rrfK, DenseWeight("dense", fusionWeight)), HitBefore())
         == Reciprocals(dense, rrfK, |dense|)
  {
    forall id ensures Total(dense, bm25, rrfK, 1.0, id) == Credit(dense, id, 1.0, rrfK, |dense|) {
      NoWeightNoCredit(bm25, rrfK, id);
    }
    SoleListOrder(dense, bm25, rrfK, 1.0, dense);
  }

  /** In sparse mode it lists the sparse ranking. */
  lemma Bm25ModeKeepsOrder(dense: seq<Hit>, bm25: seq<Hit>, rrfK: nat, fusionWeight: real)
    requires IsDict(dense) && IsDict(bm25)
    ensures Sort(Fuse(dense, bm25, rrfK, DenseWeight("bm25", fusionWeight)), HitBefore())
         == Reciprocals(bm25, rrfK, |bm25|)
  {
    forall id ensures Total(dense, bm25, rrfK, 0.0, id) == Credit(bm25, id, 1.0, rrfK, |bm25|) {
      NoWeightNoCredit(dense, rrfK, id);
    }
    SoleListOrder(dense, bm25, rrfK, 0.0, bm25);
  }

  lemma SoleListOrder(dense: seq<Hit>, bm25: seq<Hit>, rrfK: nat, weight: real, list: seq<Hit>)
    requires IsDict(dense) && IsDict(bm25) && IsDict(list)
    requires forall id :: Total(dense, bm25, rrfK, weight, id) == Credit(list, id, 1.0, rrfK, |list|)
    ensures Sort(Fuse(dense, bm25, rrfK, weight), HitBefore()) == Reciprocals(list, rrfK, |list|)
  {
    var fused, r := Fuse(dense, bm25, rrfK, weight), Reciprocals(list, rrfK, |list|);
    ReciprocalsSorted(list, rrfK);
    forall id ensures IsDict(fused) && SameEntry(r, fused, id) {
      FusedTotals(dense, bm25, rrfK, weight, id);
      ReciprocalsCredit(list, rrfK, id);
      CreditBound(list, id, 1.0, rrfK);
    }
    assert SameEntry(r, fused, "");
    SameEntries(r, fused);
    HitsAreOrdered();
    SortOfSorted(r, fused, HitBefore());
  }
}
