/** The four metrics as counts and ratios of what the result list shows. */
module MetricValues {
  import opened Basics
  import opened Ordering
  import opened Hits
  import opened Metrics
  import RankedScores

  /** The places among the first `n` results that are relevant. */
  ghost function RelevantPlaces(shown: seq<string>, relevant: seq<Hit>, n: nat): set<nat>
    requires n <= |shown|
  {
    set i: nat | i < n && Get(relevant, shown[i], 0.0) > 0.0
  }

  lemma {:induction false} HitsAreRelevant(shown: seq<string>, relevant: seq<Hit>, n: nat)
    requires n <= |shown|
    ensures HitCount(Gains(shown, relevant, |shown|), n) == |RelevantPlaces(shown, relevant, n)|
  {
    var after := RelevantPlaces(shown, relevant, n);
    if n == 0 {
      assert after == {};
    } else {
      var before := RelevantPlaces(shown, relevant, n - 1);
      HitsAreRelevant(shown, relevant, n - 1);
      assert after == if Get(relevant, shown[n - 1], 0.0) > 0.0 then before + {n - 1} else before;
    }
  }

  /** Recall is the number of relevant results shown over that of all relevant chunks, precision the same
      number over that of all results shown. */
  lemma RecallAndPrecision(results: seq<string>, relevant: seq<Hit>, finalN: int, w: nat -> real, f: real -> real,
                           shown: seq<string>, hits: nat)
    requires shown == PyTake(results, finalN) && hits == |RelevantPlaces(shown, relevant, |shown|)|
    ensures QueryMetrics(results, relevant, finalN, w, f).recall
         == hits as real / (if relevant == [] then 1 else |relevant|) as real
    ensures QueryMetrics(results, relevant, finalN, w, f).precision
         == hits as real / (if shown == [] then 1 else |shown|) as real
  {
    HitsAreRelevant(shown, relevant, |shown|);
  }

  lemma {:induction false} FirstHitIs(gains: seq<real>, i: nat, k: nat)
    requires i <= k <= |gains| && (k < |gains| ==> gains[k] > 0.0) && forall j :: i <= j < k ==> gains[j] <= 0.0
    ensures FirstHit(gains, i) == k
    decreases k - i
  {
    if i < k {
      FirstHitIs(gains, i + 1, k);
    }
  }

  /** The reciprocal rank is one over the place of the first relevant result, counted from one. */
  lemma FirstRelevant(results: seq<string>, relevant: seq<Hit>, finalN: int, w: nat -> real, f: real -> real, k: nat)
    requires k <= |PyTake(results, finalN)|
    requires forall j :: 0 <= j < k ==> Get(relevant, PyTake(results, finalN)[j], 0.0) <= 0.0
    requires k < |PyTake(results, finalN)| ==> Get(relevant, PyTake(results, finalN)[k], 0.0) > 0.0
    ensures QueryMetrics(results, relevant, finalN, w, f).mrr
         == if k < |PyTake(results, finalN)| then 1.0 / (k + 1) as real else 0.0
  {
    FirstHitIs(Shown(results, relevant, finalN), 0, k);
  }

  // ----- nDCG -----

  lemma IdealOfTwo(a: real, b: real, relevant: seq<Hit>, finalN: int)
    requires a >= b && finalN >= 2 && |relevant| == 2
    requires (relevant[0].score == a && relevant[1].score == b) || (relevant[0].score == b && relevant[1].score == a)
    ensures Ideal(relevant, finalN) == [a, b]
  {
    var values := Values(relevant, 2);
    assert Values(relevant, 1) == [relevant[0].score] && values == [relevant[0].score, relevant[1].score];
    FallingIsTotal();
    assert Sorted([a, b], Falling());
    assert multiset([a, b]) == multiset(values);
    SortOfSorted([a, b], values, Falling());
  }

  lemma DcgOfTwo(s: seq<real>, w: nat -> real, f: real -> real)
    requires |s| == 2
    ensures Dcg(s, w, f, 2) == f(s[0]) * w(0) + f(s[1]) * w(1)
  {
    assert Dcg(s, w, f, 0) == 0.0;
    assert Dcg(s, w, f, 1) == f(s[0]) * w(0);
  }

  lemma NdcgIs(results: seq<string>, relevant: seq<Hit>, finalN: int, w: nat -> real, f: real -> real,
               gains: seq<real>, ideal: seq<real>, got: real, best: real)
    requires gains == Shown(results, relevant, finalN) && ideal == Ideal(relevant, finalN)
    requires got == Dcg(gains, w, f, |gains|) && best == Dcg(ideal, w, f, |ideal|) && best > 0.0
    ensures Ndcg(results, relevant, finalN, w, f) == got / best
  {
  }

  lemma OfTwoAre(results: seq<string>, relevant: seq<Hit>, finalN: int, w: nat -> real, f: real -> real,
                 gains: seq<real>, ideal: seq<real>, got: real, best: real)
    requires |gains| == 2 && gains == Shown(results, relevant, finalN)
    requires |ideal| == 2 && ideal == Ideal(relevant, finalN)
    requires got == f(gains[0]) * w(0) + f(gains[1]) * w(1)
    requires best == f(ideal[0]) * w(0) + f(ideal[1]) * w(1) && best > 0.0
    ensures Ndcg(results, relevant, finalN, w, f) == got / best
  {
    DcgOfTwo(gains, w, f);
    DcgOfTwo(ideal, w, f);
    NdcgIs(results, relevant, finalN, w, f, gains, ideal, got, best);
  }

  lemma PairIs(i: string, j: string, relevant: seq<Hit>, finalN: int, w: nat -> real, f: real -> real,
               a: real, b: real, c: real, d: real, got: real, best: real)
    requires [a, b] == Shown([i, j], relevant, finalN) && [c, d] == Ideal(relevant, finalN)
    requires got == f(a) * w(0) + f(b) * w(1) && best == f(c) * w(0) + f(d) * w(1) && best > 0.0
    ensures Ndcg([i, j], relevant, finalN, w, f) == got / best
  {
    OfTwoAre([i, j], relevant, finalN, w, f, [a, b], [c, d], got, best);
  }

  /** Two relevant chunks of which the first is worth no less, listed in either order. */
  ghost predicate AreTwo(x: Hit, y: Hit, relevant: seq<Hit>) {
    x.score >= y.score > 0.0 && x.id != y.id && (relevant == [x, y] || relevant == [y, x])
  }

  lemma SomeOrder(x: Hit, y: Hit, relevant: seq<Hit>, finalN: int, w: nat -> real, f: real -> real,
                  i: Hit, j: Hit, got: real, best: real)
    requires AreTwo(x, y, relevant) && finalN >= 2 && ((i == x && j == y) || (i == y && j == x))
    requires got == f(i.score) * w(0) + f(j.score) * w(1)
    requires best == f(x.score) * w(0) + f(y.score) * w(1) && best > 0.0
    ensures Ndcg([i.id, j.id], relevant, finalN, w, f) == got / best
  {
    IdealOfTwo(x.score, y.score, relevant, finalN);
    GainsOfTwo(x, y, relevant, finalN);
    PairIs(i.id, j.id, relevant, finalN, w, f, i.score, j.score, x.score, y.score, got, best);
  }

  /** Shown with the better one first they have nDCG one. */
  lemma BetterFirst(x: Hit, y: Hit, relevant: seq<Hit>, finalN: int, w: nat -> real, f: real -> real)
    requires IsDiscount(w) && IsGain(f) && AreTwo(x, y, relevant) && finalN >= 2
    ensures Ndcg([x.id, y.id], relevant, finalN, w, f) == 1.0
  {
    var best := f(x.score) * w(0) + f(y.score) * w(1);
    BestOfTwo(x.score, y.score, w, f);
    SomeOrder(x, y, relevant, finalN, w, f, x, y, best, best);
    Itself(best);
  }

  /** Shown the other way round: the gains with the first place weighing `w(0)` and the second `w(1)`, over
      those of the better order. */
  lemma WorseFirst(x: Hit, y: Hit, relevant: seq<Hit>, finalN: int, w: nat -> real, f: real -> real,
                   got: real, best: real)
    requires IsDiscount(w) && IsGain(f) && AreTwo(x, y, relevant) && finalN >= 2
    requires got == f(y.score) * w(0) + f(x.score) * w(1) && best == f(x.score) * w(0) + f(y.score) * w(1)
    ensures best > 0.0 && Ndcg([y.id, x.id], relevant, finalN, w, f) == got / best
  {
    BestOfTwo(x.score, y.score, w, f);
    SomeOrder(x, y, relevant, finalN, w, f, y, x, got, best);
  }

  lemma BestOfTwo(a: real, b: real, w: nat -> real, f: real -> real)
    requires IsDiscount(w) && IsGain(f) && a > 0.0 && b > 0.0
    ensures f(a) * w(0) + f(b) * w(1) > 0.0
  {
    assert FallsFrom(w, 0, 1) && FallsFrom(w, 1, 1) && GrowsFrom(f, 0.0, a) && GrowsFrom(f, 0.0, b);
    BestIsPositive(f(a), w(0), f(b), w(1));
  }

  lemma BestIsPositive(a: real, v: real, b: real, u: real)
    requires a > 0.0 && v > 0.0 && b > 0.0 && u > 0.0
    ensures a * v + b * u > 0.0
  {
  }

  lemma GainsOfTwo(x: Hit, y: Hit, relevant: seq<Hit>, finalN: int)
    requires x.id != y.id && finalN >= 2 && (relevant == [x, y] || relevant == [y, x])
    ensures Shown([x.id, y.id], relevant, finalN) == [x.score, y.score]
    ensures Shown([y.id, x.id], relevant, finalN) == [y.score, x.score]
  {
    assert IsDict(relevant);
    Found(relevant, 0);
    Found(relevant, 1);
  }

  // ----- the best answer -----

  /** All relevant chunks, the better ones first. */
  ghost predicate IsBestOrder(order: seq<Hit>, relevant: seq<Hit>) {
    multiset(order) == multiset(relevant) && forall i, j :: 0 <= i < j < |order| ==> order[i].score >= order[j].score
  }

  lemma ValuesAreScores(d: seq<Hit>)
    ensures Values(d, |d|) == RankedScores.Mapped(d, RankedScores.Score())
  {
  }

  lemma BestIs(order: seq<Hit>, relevant: seq<Hit>)
    requires IsBestOrder(order, relevant)
    ensures Best(relevant) == Values(order, |order|)
  {
    ValuesAreScores(order);
    ValuesAreScores(relevant);
    RankedScores.MappedKeeps(order, relevant, RankedScores.Score());
    FallingIsTotal();
    SortOfSorted(Values(order, |order|), Values(relevant, |relevant|), Falling());
  }

  lemma GainOf(order: seq<Hit>, relevant: seq<Hit>, i: nat)
    requires IsDict(relevant) && IsBestOrder(order, relevant) && i < |order|
    ensures Get(relevant, order[i].id, 0.0) == order[i].score
  {
    SameMembers(order, relevant, order[i]);
    InDict(relevant, order[i]);
  }

  lemma TakenValues(order: seq<Hit>, finalN: int, shown: seq<string>, results: seq<string>)
    requires |results| == |order| && shown == PyTake(results, finalN)
    ensures |PyTake(Values(order, |order|), finalN)| == |shown|
    ensures forall i :: 0 <= i < |shown| ==> shown[i] == results[i] && PyTake(Values(order, |order|), finalN)[i] == order[i].score
  {
  }

  /** Showing all relevant chunks with the better ones first gives nDCG one, at every cut that shows a gain. */
  lemma BestOrderIsPerfect(order: seq<Hit>, relevant: seq<Hit>, results: seq<string>, finalN: int,
                           w: nat -> real, f: real -> real)
    requires IsDict(relevant) && IsBestOrder(order, relevant)
    requires |results| == |order| && forall i :: 0 <= i < |order| ==> results[i] == order[i].id
    ensures var ideal := Ideal(relevant, finalN);
            && ideal == PyTake(Values(order, |order|), finalN)
            && (Dcg(ideal, w, f, |ideal|) != 0.0 ==> Ndcg(results, relevant, finalN, w, f) == 1.0)
  {
    var shown, ideal := PyTake(results, finalN), Ideal(relevant, finalN);
    BestIs(order, relevant);
    TakenValues(order, finalN, shown, results);
    forall i | 0 <= i < |shown| ensures Gains(shown, relevant, |shown|)[i] == ideal[i] {
      GainOf(order, relevant, i);
    }
    assert Shown(results, relevant, finalN) == ideal;
    PerfectRatio(results, relevant, finalN, w, f, Dcg(ideal, w, f, |ideal|));
  }

  lemma PerfectRatio(results: seq<string>, relevant: seq<Hit>, finalN: int, w: nat -> real, f: real -> real, best: real)
    requires Shown(results, relevant, finalN) == Ideal(relevant, finalN)
    requires best == Dcg(Ideal(relevant, finalN), w, f, |Ideal(relevant, finalN)|)
    ensures best != 0.0 ==> Ndcg(results, relevant, finalN, w, f) == 1.0
  {
    if best != 0.0 {
      Itself(best);
    }
  }

  lemma Itself(x: real)
    requires x != 0.0
    ensures x / x == 1.0
  {
  }
}
