/** nDCG, reciprocal rank, recall and precision of a result list. */
module Metrics {
  import opened Basics
  import opened Ordering
  import opened Hits
  import Retrieval

  /** `1 / log2(i + 2)` as any positive, falling sequence. */
  ghost predicate IsDiscount(w: nat -> real) {
    forall i: nat, j: nat :: FallsFrom(w, i, j)
  }

  predicate FallsFrom(w: nat -> real, i: nat, j: nat) {
    w(i) > 0.0 && (i <= j ==> w(j) <= w(i))
  }

  /** `2**g - 1` as any strictly growing map that is zero at zero. */
  ghost predicate IsGain(f: real -> real) {
    f(0.0) == 0.0 && forall x, y :: GrowsFrom(f, x, y)
  }

  predicate GrowsFrom(f: real -> real, x: real, y: real) {
    x < y ==> f(x) < f(y)
  }

  function At(s: seq<real>, i: nat): real {
    if i < |s| then s[i] else 0.0
  }

  function Sum(s: seq<real>, f: real -> real, n: nat): real {
    if n == 0 then 0.0 else Sum(s, f, n - 1) + f(At(s, n - 1))
  }

  /** `dcg` of the first `n` gains. */
  function Dcg(s: seq<real>, w: nat -> real, f: real -> real, n: nat): real {
    if n == 0 then 0.0 else Dcg(s, w, f, n - 1) + f(At(s, n - 1)) * w(n - 1)
  }

  function Gains(ids: seq<string>, relevant: seq<Hit>, n: nat): (r: seq<real>)
    requires n <= |ids|
    ensures |r| == n
    ensures forall i :: 0 <= i < n ==> r[i] == Get(relevant, ids[i], 0.0)
  {
    if n == 0 then [] else Gains(ids, relevant, n - 1) + [Get(relevant, ids[n - 1], 0.0)]
  }

  function Values(relevant: seq<Hit>, n: nat): (r: seq<real>)
    requires n <= |relevant|
    ensures |r| == n
    ensures forall i :: 0 <= i < n ==> r[i] == relevant[i].score
  {
    if n == 0 then [] else Values(relevant, n - 1) + [relevant[n - 1].score]
  }

  function Falling(): (real, real) -> bool {
    (a: real, b: real) => a > b
  }

  function Best(relevant: seq<Hit>): seq<real> {
    Sort(Values(relevant, |relevant|), Falling())
  }

  function Ideal(relevant: seq<Hit>, finalN: int): seq<real> {
    PyTake(Best(relevant), finalN)
  }

  function Shown(results: seq<string>, relevant: seq<Hit>, finalN: int): seq<real> {
    Gains(PyTake(results, finalN), relevant, |PyTake(results, finalN)|)
  }

  function Ndcg(results: seq<string>, relevant: seq<Hit>, finalN: int, w: nat -> real, f: real -> real): real {
    var gains, ideal := Shown(results, relevant, finalN), Ideal(relevant, finalN);
    var best := Dcg(ideal, w, f, |ideal|);
    if best != 0.0 then Dcg(gains, w, f, |gains|) / best else 0.0
  }

  function HitCount(gains: seq<real>, n: nat): (k: nat)
    requires n <= |gains|
    ensures k <= n
  {
    if n == 0 then 0 else HitCount(gains, n - 1) + if gains[n - 1] > 0.0 then 1 else 0
  }

  function FirstHit(gains: seq<real>, i: nat): (k: nat)
    requires i <= |gains|
    ensures i <= k <= |gains| && (k < |gains| ==> gains[k] > 0.0)
    decreases |gains| - i
  {
    if i == |gains| || gains[i] > 0.0 then i else FirstHit(gains, i + 1)
  }

  function ReciprocalRank(gains: seq<real>): real {
    var k := FirstHit(gains, 0);
    if k < |gains| then 1.0 / (k + 1) as real else 0.0
  }

  datatype Scores = Scores(ndcg: real, mrr: real, recall: real, precision: real)

  /** `query_metrics` for results with the given identifiers. */
  function QueryMetrics(results: seq<string>, relevant: seq<Hit>, finalN: int, w: nat -> real, f: real -> real): Scores {
    var gains := Shown(results, relevant, finalN);
    var hits := HitCount(gains, |gains|) as real;
    Scores(Ndcg(results, relevant, finalN, w, f), ReciprocalRank(gains),
           hits / AtLeastOne(|relevant|) as real, hits / AtLeastOne(|gains|) as real)
  }

  // ----- distinct results collect no more than there is -----

  ghost predicate NonNegative(relevant: seq<Hit>) {
    forall i :: 0 <= i < |relevant| ==> relevant[i].score >= 0.0
  }

  /** A map that is zero at zero and never negative. */
  ghost predicate IsCharge(h: real -> real) {
    h(0.0) == 0.0 && forall x :: h(x) >= 0.0
  }

  /** What the first `n` identifiers collect from the first `m` relevant entries. */
  function Collected(h: real -> real, relevant: seq<Hit>, ids: seq<string>, m: nat, n: nat): real
    requires m <= |relevant| && n <= |ids|
  {
    if n == 0 then 0.0
    else
      var p := Position(relevant, ids[n - 1], m);
      Collected(h, relevant, ids, m, n - 1) + h(if p < |relevant| then relevant[p].score else 0.0)
  }

  lemma {:induction false} OneMoreEntry(h: real -> real, relevant: seq<Hit>, ids: seq<string>, m: nat, n: nat)
    requires IsCharge(h) && Distinct(ids) && 0 < m <= |relevant| && n <= |ids|
    ensures Collected(h, relevant, ids, m, n) <= Collected(h, relevant, ids, m - 1, n) + h(relevant[m - 1].score)
    ensures (forall i :: 0 <= i < n ==> ids[i] != relevant[m - 1].id) ==>
              Collected(h, relevant, ids, m, n) == Collected(h, relevant, ids, m - 1, n)
  {
    if n > 0 {
      OneMoreEntry(h, relevant, ids, m, n - 1);
    }
  }

  lemma {:induction false} NothingCollected(h: real -> real, relevant: seq<Hit>, ids: seq<string>, n: nat)
    requires IsCharge(h) && n <= |ids|
    ensures Collected(h, relevant, ids, 0, n) == 0.0
  {
    if n > 0 {
      NothingCollected(h, relevant, ids, n - 1);
    }
  }

  lemma {:induction false} CollectedBound(h: real -> real, relevant: seq<Hit>, ids: seq<string>, m: nat)
    requires IsCharge(h) && Distinct(ids) && m <= |relevant|
    ensures Collected(h, relevant, ids, m, |ids|) <= Sum(Values(relevant, |relevant|), h, m)
  {
    if m == 0 {
      NothingCollected(h, relevant, ids, |ids|);
    } else {
      CollectedBound(h, relevant, ids, m - 1);
      OneMoreEntry(h, relevant, ids, m, |ids|);
    }
  }

  lemma {:induction false} GainsCollect(h: real -> real, relevant: seq<Hit>, ids: seq<string>, n: nat)
    requires n <= |ids|
    ensures Sum(Gains(ids, relevant, |ids|), h, n) == Collected(h, relevant, ids, |relevant|, n)
  {
    if n > 0 {
      GainsCollect(h, relevant, ids, n - 1);
    }
  }

  // ----- sums do not depend on the order -----

  lemma FallingIsTotal()
    ensures StrictTotal(Falling())
  {
    forall x, y, z ensures Chains(Falling(), x, y, z) {
    }
    forall x, y ensures Decides(Falling(), x, y) {
    }
  }

  lemma {:induction false} SumOfPrefix(s: seq<real>, t: seq<real>, f: real -> real, n: nat)
    requires forall i :: 0 <= i < n ==> At(s, i) == At(t, i)
    ensures Sum(s, f, n) == Sum(t, f, n)
  {
    if n > 0 {
      SumOfPrefix(s, t, f, n - 1);
    }
  }

  lemma {:induction false} SumOfInserted(s: seq<real>, k: nat, x: real, r: seq<real>, f: real -> real, n: nat)
    requires k <= |s| && k <= n <= |s| && r == s[..k] + [x] + s[k..]
    ensures Sum(r, f, n + 1) == Sum(s, f, n) + f(x)
  {
    if n == k {
      SumOfPrefix(r, s, f, n);
    } else {
      SumOfInserted(s, k, x, r, f, n - 1);
      InsertedAt(x, s, k, r, n);
    }
  }

  lemma {:induction false} SumOfSorted(s: seq<real>, f: real -> real, n: nat)
    requires n <= |s|
    ensures Sum(SortTo(s, Falling(), n), f, n) == Sum(s, f, n)
  {
    if n > 0 {
      SumOfSorted(s, f, n - 1);
      var before := SortTo(s, Falling(), n - 1);
      SumOfInserted(before, Place(s[n - 1], before, Falling(), n - 1), s[n - 1], SortTo(s, Falling(), n), f, n - 1);
    }
  }

  // ----- the first t gains collect no more than the t best -----

  function Repeated(x: real, n: nat): real {
    if n == 0 then 0.0 else Repeated(x, n - 1) + x
  }

  /** `h(x)` is how far `f(x)` exceeds `f(level)`. */
  ghost predicate IsExcess(h: real -> real, f: real -> real, level: real) {
    forall x :: ExceedsBy(h, f, level, x)
  }

  predicate ExceedsBy(h: real -> real, f: real -> real, level: real, x: real) {
    h(x) == if x > level then f(x) - f(level) else 0.0
  }

  function Excess(f: real -> real, level: real): real -> real {
    x => if x > level then f(x) - f(level) else 0.0
  }

  lemma ExcessIsCharge(f: real -> real, level: real)
    requires IsGain(f) && level >= 0.0
    ensures IsExcess(Excess(f, level), f, level) && IsCharge(Excess(f, level))
  {
    var h := Excess(f, level);
    forall x ensures h(x) >= 0.0 {
      assert GrowsFrom(f, level, x);
    }
  }

  lemma ExcessAt(h: real -> real, f: real -> real, level: real, x: real)
    requires IsGain(f) && IsExcess(h, f, level)
    ensures h(x) >= f(x) - f(level)
    ensures x >= level ==> h(x) == f(x) - f(level)
    ensures x <= level ==> h(x) == 0.0
  {
    assert GrowsFrom(f, x, level) && ExceedsBy(h, f, level, x);
  }

  lemma {:induction false} AboveLevel(g: seq<real>, h: real -> real, f: real -> real, level: real, t: nat)
    requires IsGain(f) && IsExcess(h, f, level)
    ensures Sum(g, f, t) <= Repeated(f(level), t) + Sum(g, h, t)
  {
    if t > 0 {
      AboveLevel(g, h, f, level, t - 1);
      ExcessAt(h, f, level, At(g, t - 1));
    }
  }

  ghost predicate FallsPast(d: seq<real>, t: nat, level: real) {
    forall i :: 0 <= i < |d| ==> if i < t then d[i] >= level else d[i] <= level
  }

  lemma {:induction false} BestExcess(d: seq<real>, h: real -> real, f: real -> real, level: real, t: nat, n: nat)
    requires IsGain(f) && IsExcess(h, f, level) && FallsPast(d, t, level) && n <= |d|
    ensures n <= t ==> Sum(d, h, n) + Repeated(f(level), n) == Sum(d, f, n)
    ensures n >= t ==> Sum(d, h, n) + Repeated(f(level), t) == Sum(d, f, t)
  {
    if n > 0 {
      BestExcess(d, h, f, level, t, n - 1);
      ExcessAt(h, f, level, d[n - 1]);
    }
  }

  lemma {:induction false} RepeatedZero(n: nat)
    ensures Repeated(0.0, n) == 0.0
  {
    if n > 0 {
      RepeatedZero(n - 1);
    }
  }

  lemma {:induction false} SumPastEnd(d: seq<real>, f: real -> real, n: nat)
    requires f(0.0) == 0.0 && n >= |d|
    ensures Sum(d, f, n) == Sum(d, f, |d|)
  {
    if n > |d| {
      SumPastEnd(d, f, n - 1);
    }
  }

  lemma LevelFalls(d: seq<real>, t: nat)
    requires Sorted(d, Falling()) && AllNonNegative(d)
    ensures FallsPast(d, t, At(d, t)) && At(d, t) >= 0.0
  {
  }

  lemma BestExcessBound(d: seq<real>, h: real -> real, f: real -> real, level: real, t: nat)
    requires IsGain(f) && IsExcess(h, f, level) && level == At(d, t) && FallsPast(d, t, level)
    ensures Sum(d, h, |d|) + Repeated(f(level), t) == Sum(d, f, t)
  {
    BestExcess(d, h, f, level, t, |d|);
    if t > |d| {
      SumPastEnd(d, f, t);
      RepeatedZero(|d|);
      RepeatedZero(t);
    }
  }

  ghost predicate AllNonNegative(s: seq<real>) {
    forall i :: 0 <= i < |s| ==> s[i] >= 0.0
  }

  lemma BestFacts(relevant: seq<Hit>)
    requires NonNegative(relevant)
    ensures |Best(relevant)| == |relevant|
    ensures Sorted(Best(relevant), Falling()) && AllNonNegative(Best(relevant))
  {
    var values, best := Values(relevant, |relevant|), Best(relevant);
    FallingIsTotal();
    SortSorts(values, Falling());
    forall i | 0 <= i < |best| ensures best[i] >= 0.0 {
      assert best[i] in multiset(values);
      assert best[i] in values;
    }
  }

  lemma FirstDistinct(ids: seq<string>, t: nat)
    requires Distinct(ids) && t <= |ids|
    ensures Distinct(ids[..t])
  {
  }

  lemma ChargeBound(h: real -> real, relevant: seq<Hit>, ids: seq<string>)
    requires IsCharge(h) && Distinct(ids)
    ensures Sum(Gains(ids, relevant, |ids|), h, |ids|) <= Sum(Best(relevant), h, |relevant|)
  {
    GainsCollect(h, relevant, ids, |ids|);
    CollectedBound(h, relevant, ids, |relevant|);
    SumOfSorted(Values(relevant, |relevant|), h, |relevant|);
  }

  lemma LevelBound(ids: seq<string>, relevant: seq<Hit>, h: real -> real, f: real -> real, level: real)
    requires IsGain(f) && Distinct(ids) && IsExcess(h, f, level) && IsCharge(h)
    requires level == At(Best(relevant), |ids|) && FallsPast(Best(relevant), |ids|, level)
    requires |Best(relevant)| == |relevant|
    ensures Sum(Gains(ids, relevant, |ids|), f, |ids|) <= Sum(Best(relevant), f, |ids|)
  {
    ChargeBound(h, relevant, ids);
    AboveLevel(Gains(ids, relevant, |ids|), h, f, level, |ids|);
    BestExcessBound(Best(relevant), h, f, level, |ids|);
  }

  lemma AllGainsBound(ids: seq<string>, relevant: seq<Hit>, f: real -> real)
    requires IsGain(f) && Distinct(ids) && NonNegative(relevant)
    ensures Sum(Gains(ids, relevant, |ids|), f, |ids|) <= Sum(Best(relevant), f, |ids|)
  {
    BestFacts(relevant);
    LevelFalls(Best(relevant), |ids|);
    var level := At(Best(relevant), |ids|);
    ExcessIsCharge(f, level);
    LevelBound(ids, relevant, Excess(f, level), f, level);
  }

  lemma FirstGains(ids: seq<string>, relevant: seq<Hit>, f: real -> real, t: nat)
    requires t <= |ids|
    ensures Sum(Gains(ids[..t], relevant, t), f, t) == Sum(Gains(ids, relevant, |ids|), f, t)
  {
    var a, b := Gains(ids[..t], relevant, t), Gains(ids, relevant, |ids|);
    forall i: nat | i < t ensures At(a, i) == At(b, i) {
    }
    SumOfPrefix(a, b, f, t);
  }

  /** However the results are ordered, their first `t` gains sum to no more than the `t`
      best relevance values. */
  lemma FirstGainsBound(ids: seq<string>, relevant: seq<Hit>, f: real -> real, t: nat)
    requires IsGain(f) && Distinct(ids) && NonNegative(relevant) && t <= |ids|
    ensures Sum(Gains(ids, relevant, |ids|), f, t) <= Sum(Best(relevant), f, t)
  {
    FirstDistinct(ids, t);
    AllGainsBound(ids[..t], relevant, f);
    FirstGains(ids, relevant, f, t);
  }

  // ----- summation by parts -----

  lemma LessWeight(gap: real, v: real, w: real)
    requires gap >= 0.0 && w <= v
    ensures gap * w <= gap * v
  {
  }

  /** Dominated prefix sums give a dominated sum under falling weights. */
  lemma {:induction false} ByParts(g: seq<real>, d: seq<real>, w: nat -> real, f: real -> real, n: nat)
    requires IsDiscount(w) && n > 0
    requires forall t: nat :: t <= n ==> Sum(g, f, t) <= Sum(d, f, t)
    ensures Dcg(d, w, f, n) - Dcg(g, w, f, n) >= (Sum(d, f, n) - Sum(g, f, n)) * w(n - 1)
  {
    var gap := Sum(d, f, n - 1) - Sum(g, f, n - 1);
    var x, y := f(At(d, n - 1)), f(At(g, n - 1));
    if n > 1 {
      ByParts(g, d, w, f, n - 1);
      assert FallsFrom(w, n - 2, n - 1) && gap >= 0.0;
      LessWeight(gap, w(n - 2), w(n - 1));
    }
    PartsStep(gap, x, y, w(n - 1));
    assert Sum(d, f, n) - Sum(g, f, n) == gap + (x - y);
  }

  lemma PartsStep(gap: real, x: real, y: real, w: real)
    ensures (gap + (x - y)) * w == gap * w + (x * w - y * w)
  {
    assert (gap + (x - y)) * w == gap * w + (x - y) * w;
    assert (x - y) * w == x * w - y * w;
  }

  lemma DcgDominated(g: seq<real>, d: seq<real>, w: nat -> real, f: real -> real, n: nat)
    requires IsDiscount(w) && forall t: nat :: t <= n ==> Sum(g, f, t) <= Sum(d, f, t)
    ensures Dcg(g, w, f, n) <= Dcg(d, w, f, n)
  {
    if n > 0 {
      ByParts(g, d, w, f, n);
      assert FallsFrom(w, n - 1, n);
      assert Sum(g, f, n) <= Sum(d, f, n);
      LessWeight(Sum(d, f, n) - Sum(g, f, n), w(n - 1), 0.0);
    }
  }

  lemma {:induction false} DcgGrows(s: seq<real>, w: nat -> real, f: real -> real, m: nat, n: nat)
    requires IsDiscount(w) && IsGain(f) && AllNonNegative(s) && m <= n
    ensures Dcg(s, w, f, m) <= Dcg(s, w, f, n)
    ensures m >= |s| ==> Dcg(s, w, f, m) == Dcg(s, w, f, n)
  {
    if m < n {
      DcgGrows(s, w, f, m, n - 1);
      assert FallsFrom(w, n - 1, n);
      GainWeighs(At(s, n - 1), w(n - 1), f);
    }
  }

  lemma GainWeighs(x: real, w: real, f: real -> real)
    requires IsGain(f) && x >= 0.0 && w > 0.0
    ensures f(x) * w >= 0.0 && (x > 0.0 <==> f(x) * w > 0.0)
  {
    assert GrowsFrom(f, 0.0, x);
  }

  /** No ordering of distinct results collects more than the ideal list of the same cut. */
  lemma DcgBound(results: seq<string>, relevant: seq<Hit>, finalN: nat, w: nat -> real, f: real -> real)
    requires IsDiscount(w) && IsGain(f) && Distinct(results) && NonNegative(relevant)
    ensures var gains, ideal := Shown(results, relevant, finalN), Ideal(relevant, finalN);
            0.0 <= Dcg(gains, w, f, |gains|) <= Dcg(ideal, w, f, |ideal|)
  {
    var ids := PyTake(results, finalN);
    var gains, ideal := Shown(results, relevant, finalN), Ideal(relevant, finalN);
    BestFacts(relevant);
    ShownFacts(results, relevant, finalN);
    forall t: nat | t <= |ids| ensures Sum(gains, f, t) <= Sum(ideal, f, t) {
      FirstGainsBound(ids, relevant, f, t);
      SumOfPrefix(Best(relevant), ideal, f, t);
    }
    DcgDominated(gains, ideal, w, f, |ids|);
    DcgGrows(gains, w, f, 0, |ids|);
    if |ids| <= |ideal| {
      DcgGrows(ideal, w, f, |ids|, |ideal|);
    } else {
      DcgGrows(ideal, w, f, |ideal|, |ids|);
    }
  }

  lemma GetNonNegative(relevant: seq<Hit>, id: string)
    requires NonNegative(relevant)
    ensures Get(relevant, id, 0.0) >= 0.0
  {
  }

  lemma ShownFacts(results: seq<string>, relevant: seq<Hit>, finalN: int)
    requires Distinct(results) && NonNegative(relevant)
    ensures Distinct(PyTake(results, finalN)) && AllNonNegative(Shown(results, relevant, finalN))
  {
    var gains := Shown(results, relevant, finalN);
    forall i | 0 <= i < |gains| ensures gains[i] >= 0.0 {
      GetNonNegative(relevant, PyTake(results, finalN)[i]);
    }
  }

  // ----- the four metrics -----

  function Indicator(): real -> real {
    x => if x > 0.0 then 1.0 else 0.0
  }

  lemma {:induction false} HitsAreSum(gains: seq<real>, n: nat)
    requires n <= |gains|
    ensures HitCount(gains, n) as real == Sum(gains, Indicator(), n)
  {
    if n > 0 {
      HitsAreSum(gains, n - 1);
    }
  }

  lemma {:induction false} IndicatorBound(s: seq<real>, n: nat)
    ensures Sum(s, Indicator(), n) <= n as real
  {
    if n > 0 {
      IndicatorBound(s, n - 1);
    }
  }

  lemma HitsBound(results: seq<string>, relevant: seq<Hit>, finalN: int)
    requires Distinct(results) && NonNegative(relevant)
    ensures var gains := Shown(results, relevant, finalN);
            HitCount(gains, |gains|) <= |relevant|
  {
    var gains, ids := Shown(results, relevant, finalN), PyTake(results, finalN);
    ShownFacts(results, relevant, finalN);
    HitsAreSum(gains, |gains|);
    ChargeBound(Indicator(), relevant, ids);
    IndicatorBound(Best(relevant), |relevant|);
  }

  lemma {:induction false} HitExists(gains: seq<real>, n: nat)
    requires n <= |gains|
    ensures HitCount(gains, n) > 0 <==> exists i :: 0 <= i < n && gains[i] > 0.0
  {
    if n > 0 {
      HitExists(gains, n - 1);
    }
  }

  lemma {:induction false} FirstHitFinds(gains: seq<real>, i: nat, j: nat)
    requires i <= j < |gains| && gains[j] > 0.0
    ensures FirstHit(gains, i) <= j
    decreases j - i
  {
    if gains[i] <= 0.0 {
      FirstHitFinds(gains, i + 1, j);
    }
  }

  lemma {:induction false} DcgPositive(gains: seq<real>, w: nat -> real, f: real -> real, n: nat)
    requires IsDiscount(w) && IsGain(f) && AllNonNegative(gains) && n <= |gains|
    ensures 0.0 <= Dcg(gains, w, f, n)
    ensures Dcg(gains, w, f, n) > 0.0 <==> HitCount(gains, n) > 0
  {
    if n > 0 {
      DcgPositive(gains, w, f, n - 1);
      assert FallsFrom(w, n - 1, n);
      GainWeighs(gains[n - 1], w(n - 1), f);
    }
  }

  lemma ReciprocalRankFacts(gains: seq<real>)
    ensures 0.0 <= ReciprocalRank(gains) <= 1.0
    ensures ReciprocalRank(gains) > 0.0 <==> HitCount(gains, |gains|) > 0
  {
    var k := FirstHit(gains, 0);
    HitExists(gains, |gains|);
    if HitCount(gains, |gains|) > 0 {
      var j :| 0 <= j < |gains| && gains[j] > 0.0;
      FirstHitFinds(gains, 0, j);
    }
    if k < |gains| {
      UnitRatio(1.0, (k + 1) as real);
    }
  }

  lemma UnitRatio(part: real, whole: real)
    requires 0.0 <= part <= whole && whole > 0.0
    ensures 0.0 <= part / whole <= 1.0
    ensures part / whole > 0.0 <==> part > 0.0
  {
    assert part / whole * whole == part;
  }

  lemma NdcgFacts(results: seq<string>, relevant: seq<Hit>, finalN: nat, w: nat -> real, f: real -> real)
    requires IsDiscount(w) && IsGain(f) && Distinct(results) && NonNegative(relevant)
    ensures var gains := Shown(results, relevant, finalN);
            && 0.0 <= Ndcg(results, relevant, finalN, w, f) <= 1.0
            && (Ndcg(results, relevant, finalN, w, f) > 0.0 <==> HitCount(gains, |gains|) > 0)
  {
    var gains, ideal := Shown(results, relevant, finalN), Ideal(relevant, finalN);
    DcgBound(results, relevant, finalN, w, f);
    ShownFacts(results, relevant, finalN);
    DcgPositive(gains, w, f, |gains|);
    var best := Dcg(ideal, w, f, |ideal|);
    if best != 0.0 {
      UnitRatio(Dcg(gains, w, f, |gains|), best);
    }
  }

  predicate InUnit(m: Scores) {
    0.0 <= m.ndcg <= 1.0 && 0.0 <= m.mrr <= 1.0 && 0.0 <= m.recall <= 1.0 && 0.0 <= m.precision <= 1.0
  }

  predicate PositiveTogether(m: Scores) {
    (m.ndcg > 0.0) == (m.mrr > 0.0) == (m.recall > 0.0) == (m.precision > 0.0)
  }

  /** All four metrics lie in the unit interval and are positive together. */
  lemma MetricsInUnit(results: seq<string>, relevant: seq<Hit>, finalN: nat, w: nat -> real, f: real -> real)
    requires IsDiscount(w) && IsGain(f) && Distinct(results) && NonNegative(relevant)
    ensures InUnit(QueryMetrics(results, relevant, finalN, w, f))
    ensures PositiveTogether(QueryMetrics(results, relevant, finalN, w, f))
  {
    var gains := Shown(results, relevant, finalN);
    var hits := HitCount(gains, |gains|) as real;
    NdcgFacts(results, relevant, finalN, w, f);
    ReciprocalRankFacts(gains);
    HitsBound(results, relevant, finalN);
    UnitRatio(hits, AtLeastOne(|relevant|) as real);
    UnitRatio(hits, AtLeastOne(|gains|) as real);
  }

  function RowIds(rows: seq<Retrieval.Row>, n: nat): (ids: seq<string>)
    requires n <= |rows|
    ensures |ids| == n
    ensures forall i :: 0 <= i < n ==> ids[i] == rows[i].id
  {
    if n == 0 then [] else RowIds(rows, n - 1) + [rows[n - 1].id]
  }

  /** What is retrieved names no chunk twice, so its metrics are always in range. */
  lemma RetrievedMetricsInUnit(over: seq<Hit>, rerank: string -> real, rows: seq<Retrieval.Row>, relevant: seq<Hit>,
                               finalN: nat, w: nat -> real, f: real -> real)
    requires IsDiscount(w) && IsGain(f) && NonNegative(relevant) && Retrieval.IsAnswer(over, rerank, finalN, rows)
    ensures InUnit(QueryMetrics(RowIds(rows, |rows|), relevant, finalN, w, f))
    ensures PositiveTogether(QueryMetrics(RowIds(rows, |rows|), relevant, finalN, w, f))
  {
    assert Retrieval.RowsFall(rows);
    MetricsInUnit(RowIds(rows, |rows|), relevant, finalN, w, f);
  }

  // ----- a negative cut -----

  function Name(n: nat): (s: string)
    ensures |s| == n
  {
    if n == 0 then "" else Name(n - 1) + "a"
  }

  function Names(n: nat): (ids: seq<string>)
    ensures |ids| == n
    ensures forall i :: 0 <= i < n ==> |ids[i]| == i
  {
    if n == 0 then [] else Names(n - 1) + [Name(n - 1)]
  }

  function Ones(n: nat): (relevant: seq<Hit>)
    ensures |relevant| == n
    ensures forall i :: 0 <= i < n ==> relevant[i] == Hit(Name(i), 1.0)
  {
    if n == 0 then [] else Ones(n - 1) + [Hit(Name(n - 1), 1.0)]
  }

  ghost predicate IsOverOne(results: seq<string>, relevant: seq<Hit>, finalN: int, w: nat -> real, f: real -> real) {
    Distinct(results) && NonNegative(relevant) && IsDict(relevant) && Ndcg(results, relevant, finalN, w, f) > 1.0
  }

  ghost predicate IsBounded(results: seq<string>, relevant: seq<Hit>, finalN: int, w: nat -> real, f: real -> real) {
    Distinct(results) && NonNegative(relevant) && IsDict(relevant) ==> Ndcg(results, relevant, finalN, w, f) <= 1.0
  }

  lemma {:induction false} NamesAgree(n: nat, i: nat)
    requires i < n
    ensures Names(n)[i] == Name(i)
  {
    if i < n - 1 {
      NamesAgree(n - 1, i);
    }
  }

  lemma OnesFacts(n: nat)
    ensures IsDict(Ones(n)) && NonNegative(Ones(n))
  {
  }

  lemma BestOfOnes(n: nat)
    requires n > 0
    ensures Best(Ones(n))[0] == 1.0
  {
    var values := Values(Ones(n), n);
    FallingIsTotal();
    SortSorts(values, Falling());
    assert Best(Ones(n))[0] in multiset(values);
    assert Best(Ones(n))[0] in values;
  }

  lemma TwoOverOne(gains: seq<real>, ideal: seq<real>, w: nat -> real, f: real -> real)
    requires IsDiscount(w) && IsGain(f) && gains == [1.0, 1.0] && ideal == [1.0]
    ensures 0.0 < Dcg(ideal, w, f, 1) < Dcg(gains, w, f, 2)
  {
    assert FallsFrom(w, 0, 1) && FallsFrom(w, 1, 2);
    GainWeighs(1.0, w(0), f);
    GainWeighs(1.0, w(1), f);
    assert Dcg(ideal, w, f, 1) == f(1.0) * w(0);
    assert Dcg(gains, w, f, 1) == f(1.0) * w(0);
  }

  /** `k + 2` results of which `k + 1` are relevant: the cut keeps two of the former and one
      of the latter. */
  lemma NegativeCutExceeds(k: nat, finalN: int, w: nat -> real, f: real -> real)
    requires k > 0 && finalN + k == 0 && IsDiscount(w) && IsGain(f)
    ensures IsOverOne(Names(k + 2), Ones(k + 1), finalN, w, f)
  {
    var results, relevant := Names(k + 2), Ones(k + 1);
    OnesFacts(k + 1);
    var gains, ideal := Shown(results, relevant, finalN), Ideal(relevant, finalN);
    BestOfOnes(k + 1);
    forall i | 0 <= i < 2 ensures gains[i] == 1.0 {
      NamesAgree(k + 2, i);
      Found(relevant, i);
    }
    assert gains == [1.0, 1.0] && ideal == [1.0];
    TwoOverOne(gains, ideal, w, f);
    AboveOne(Dcg(gains, w, f, 2), Dcg(ideal, w, f, 1));
  }

  lemma AboveOne(part: real, whole: real)
    requires 0.0 < whole < part
    ensures part / whole > 1.0
  {
    assert part / whole * whole == part;
  }

  /** nDCG never exceeds one, whatever the results and the relevance, exactly when the cut
      is not negative: the code passes `final_n` on unchecked. */
  lemma NdcgBoundedIff(finalN: int, w: nat -> real, f: real -> real)
    requires IsDiscount(w) && IsGain(f)
    ensures (forall results, relevant :: IsBounded(results, relevant, finalN, w, f)) <==> finalN >= 0
  {
    if finalN >= 0 {
      forall results, relevant ensures IsBounded(results, relevant, finalN, w, f) {
        if Distinct(results) && NonNegative(relevant) {
          NdcgFacts(results, relevant, finalN, w, f);
        }
      }
    } else {
      NegativeCutExceeds(-finalN, finalN, w, f);
      assert !IsBounded(Names(-finalN + 2), Ones(-finalN + 1), finalN, w, f);
    }
  }
}
