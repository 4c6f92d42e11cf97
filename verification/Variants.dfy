/** Merging the results of several variants of one query. */
module Variants {
  import opened Ordering
  import opened Hits
  import opened Retrieval

  /** The dictionaries `by_id` and `scores`. */
  datatype Tally = Tally(scores: seq<Hit>, byId: map<string, Row>)

  function Inverse(rank: nat): (r: real)
    ensures r > 0.0
  {
    1.0 / (rank + 1) as real
  }

  function Offer(t: Tally, row: Row): Tally {
    if Inverse(row.rank) > Get(t.scores, row.id, -1.0)
    then Tally(Put(t.scores, row.id, Inverse(row.rank)), t.byId[row.id := row])
    else t
  }

  function OfferAll(t: Tally, results: seq<Row>, n: nat): Tally
    requires n <= |results|
  {
    if n == 0 then t else Offer(OfferAll(t, results, n - 1), results[n - 1])
  }

  function Merge(run: string -> seq<Row>, variants: seq<string>, n: nat): Tally
    requires n <= |variants|
  {
    if n == 0 then Tally([], map[])
    else OfferAll(Merge(run, variants, n - 1), run(variants[n - 1]), |run(variants[n - 1])|)
  }

  /** One entry an identifier, each with the row that earned its score. */
  ghost predicate IsTally(t: Tally) {
    IsDict(t.scores) && forall id :: Earned(t, id)
  }

  ghost predicate Earned(t: Tally, id: string) {
    Has(t.scores, id) ==>
      id in t.byId && t.byId[id].id == id && Inverse(t.byId[id].rank) == Get(t.scores, id, -1.0)
  }

  lemma GetOther(d: seq<Hit>, id: string)
    ensures Has(d, id) ==> Get(d, id, -1.0) == Get(d, id, 0.0)
  {
  }

  lemma OfferIsTally(t: Tally, row: Row)
    requires IsTally(t)
    ensures IsTally(Offer(t, row))
  {
    PutIsDict(t.scores, row.id, Inverse(row.rank));
    forall id ensures Earned(Offer(t, row), id) {
      assert Earned(t, id);
      GetOfPut(t.scores, row.id, Inverse(row.rank), id, -1.0);
    }
  }

  lemma {:induction false} OfferAllIsTally(t: Tally, results: seq<Row>, n: nat)
    requires IsTally(t) && n <= |results|
    ensures IsTally(OfferAll(t, results, n))
  {
    if n > 0 {
      OfferAllIsTally(t, results, n - 1);
      OfferIsTally(OfferAll(t, results, n - 1), results[n - 1]);
    }
  }

  lemma {:induction false} MergeIsTally(run: string -> seq<Row>, variants: seq<string>, n: nat)
    requires n <= |variants|
    ensures IsTally(Merge(run, variants, n))
  {
    if n > 0 {
      MergeIsTally(run, variants, n - 1);
      OfferAllIsTally(Merge(run, variants, n - 1), run(variants[n - 1]), |run(variants[n - 1])|);
    }
  }

  function ShowRow(t: Tally, h: Hit, rank: nat): Row
    requires h.id in t.byId
  {
    t.byId[h.id].(rank := rank, score := h.score)
  }

  /** `rows` lists the first `n` of `ranked` under fresh ranks. */
  ghost predicate IsListing(t: Tally, ranked: seq<Hit>, n: nat, rows: seq<Row>)
    requires n <= |ranked|
  {
    && |rows| == n
    && forall i :: 0 <= i < n ==> ranked[i].id in t.byId && rows[i] == ShowRow(t, ranked[i], i + 1)
  }

  class Board {
    var scores: seq<Hit>
    var byId: map<string, Row>

    function View(): Tally
      reads this
    {
      Tally(scores, byId)
    }

    constructor ()
      ensures View() == Tally([], map[])
    {
      scores, byId := [], map[];
    }

    /** `collect_variant_scores` */
    method Collect(results: seq<Row>)
      modifies this
      ensures View() == OfferAll(old(View()), results, |results|)
    {
      ghost var start := View();
      for n := 0 to |results|
        invariant View() == OfferAll(start, results, n)
      {
        var row := results[n];
        if Inverse(row.rank) > Get(scores, row.id, -1.0) {
          scores := Put(scores, row.id, Inverse(row.rank));
          byId := byId[row.id := row];
        }
      }
    }

    /** `ranked_rows` */
    method RankedRows(finalN: int) returns (rows: seq<Row>)
      requires IsTally(View())
      ensures IsListing(View(), PyTake(Sort(scores, HitBefore()), finalN),
                        |PyTake(Sort(scores, HitBefore()), finalN)|, rows)
    {
      rows := [];
      var ranked := PyTake(Sort(scores, HitBefore()), finalN);
      for n := 0 to |ranked|
        invariant IsListing(View(), ranked, n, rows)
      {
        RankedHas(View(), finalN, n);
        rows := rows + [ShowRow(View(), ranked[n], n + 1)];
      }
    }
  }

  lemma RankedHas(t: Tally, finalN: int, i: nat)
    requires IsTally(t) && i < |PyTake(Sort(t.scores, HitBefore()), finalN)|
    ensures PyTake(Sort(t.scores, HitBefore()), finalN)[i].id in t.byId
  {
    var ranked := Sort(t.scores, HitBefore());
    RankedIsDict(t.scores);
    assert ranked[i] in multiset(t.scores);
    assert ranked[i] in t.scores;
    InDict(t.scores, ranked[i]);
    assert Earned(t, ranked[i].id);
  }

  function Ranking(run: string -> seq<Row>, variants: seq<string>, finalN: int): seq<Hit> {
    PyTake(Sort(Merge(run, variants, |variants|).scores, HitBefore()), finalN)
  }

  /** `aggregate_variant_results`; `run` is the retrieval of one variant. */
  method Aggregate(run: string -> seq<Row>, variants: seq<string>, finalN: int) returns (rows: seq<Row>)
    ensures IsListing(Merge(run, variants, |variants|), Ranking(run, variants, finalN),
                      |Ranking(run, variants, finalN)|, rows)
  {
    var board := new Board();
    for n := 0 to |variants|
      invariant board.View() == Merge(run, variants, n)
    {
      board.Collect(run(variants[n]));
    }
    MergeIsTally(run, variants, |variants|);
    rows := board.RankedRows(finalN);
  }

  // ----- the merged scores are maxima -----

  function Max(a: real, b: real): real {
    if a < b then b else a
  }

  function BestIn(results: seq<Row>, id: string, n: nat): (r: real)
    requires n <= |results|
    ensures r == -1.0 || r > 0.0
  {
    if n == 0 then -1.0
    else if results[n - 1].id == id then Max(BestIn(results, id, n - 1), Inverse(results[n - 1].rank))
    else BestIn(results, id, n - 1)
  }

  /** The best inverse rank of `id` in any of the first `n` variants, or -1. */
  function BestOf(run: string -> seq<Row>, variants: seq<string>, id: string, n: nat): (r: real)
    requires n <= |variants|
    ensures r == -1.0 || r > 0.0
  {
    if n == 0 then -1.0
    else Max(BestOf(run, variants, id, n - 1), BestIn(run(variants[n - 1]), id, |run(variants[n - 1])|))
  }

  ghost predicate Holds(t: Tally, id: string, best: real) {
    Get(t.scores, id, -1.0) == best && (Has(t.scores, id) <==> best > 0.0)
  }

  lemma OfferTakesMax(t: Tally, row: Row, id: string, best: real)
    requires IsTally(t) && Holds(t, id, best) && (best == -1.0 || best > 0.0)
    ensures Holds(Offer(t, row), id, if row.id == id then Max(best, Inverse(row.rank)) else best)
  {
    GetOfPut(t.scores, row.id, Inverse(row.rank), id, -1.0);
  }

  lemma {:induction false} OfferAllTakesMax(t: Tally, results: seq<Row>, id: string, best: real, n: nat)
    requires IsTally(t) && Holds(t, id, best) && (best == -1.0 || best > 0.0) && n <= |results|
    ensures Holds(OfferAll(t, results, n), id, Max(best, BestIn(results, id, n)))
  {
    if n > 0 {
      OfferAllTakesMax(t, results, id, best, n - 1);
      OfferAllIsTally(t, results, n - 1);
      OfferTakesMax(OfferAll(t, results, n - 1), results[n - 1], id, Max(best, BestIn(results, id, n - 1)));
    }
  }

  /** Each identifier's score is its maximum over the variants. */
  lemma {:induction false} MergeTakesMax(run: string -> seq<Row>, variants: seq<string>, id: string, n: nat)
    requires n <= |variants|
    ensures Holds(Merge(run, variants, n), id, BestOf(run, variants, id, n))
  {
    if n > 0 {
      MergeTakesMax(run, variants, id, n - 1);
      MergeIsTally(run, variants, n - 1);
      OfferAllTakesMax(Merge(run, variants, n - 1), run(variants[n - 1]), id, BestOf(run, variants, id, n - 1),
                       |run(variants[n - 1])|);
    }
  }

  lemma {:induction false} VariantBelowBest(run: string -> seq<Row>, variants: seq<string>, id: string, n: nat, i: nat)
    requires i < n <= |variants|
    ensures BestIn(run(variants[i]), id, |run(variants[i])|) <= BestOf(run, variants, id, n)
  {
    if i < n - 1 {
      VariantBelowBest(run, variants, id, n - 1, i);
    }
  }

  lemma {:induction false} FewerVariants(run: string -> seq<Row>, some: seq<string>, all: seq<string>, id: string, n: nat)
    requires n <= |some| && forall v :: v in some ==> v in all
    ensures BestOf(run, some, id, n) <= BestOf(run, all, id, |all|)
  {
    if n > 0 {
      FewerVariants(run, some, all, id, n - 1);
      assert some[n - 1] in all;
      var i :| 0 <= i < |all| && all[i] == some[n - 1];
      VariantBelowBest(run, all, id, |all|, i);
    }
  }

  /** The ranking depends on which variants there are, not on their order or repetition. */
  lemma VariantOrderIsIrrelevant(run: string -> seq<Row>, some: seq<string>, others: seq<string>, finalN: int)
    requires forall v :: v in some <==> v in others
    ensures Ranking(run, some, finalN) == Ranking(run, others, finalN)
  {
    var a, b := Merge(run, some, |some|), Merge(run, others, |others|);
    MergeIsTally(run, some, |some|);
    MergeIsTally(run, others, |others|);
    forall id ensures SameEntry(a.scores, b.scores, id) {
      MergeTakesMax(run, some, id, |some|);
      MergeTakesMax(run, others, id, |others|);
      FewerVariants(run, some, others, id, |some|);
      FewerVariants(run, others, some, id, |others|);
      GetOther(a.scores, id);
      GetOther(b.scores, id);
    }
    RankingOfEntries(a.scores, b.scores);
  }

  lemma ListedId(t: Tally, finalN: int, rows: seq<Row>, i: nat)
    requires IsTally(t)
    requires IsListing(t, PyTake(Sort(t.scores, HitBefore()), finalN),
                       |PyTake(Sort(t.scores, HitBefore()), finalN)|, rows)
    requires i < |rows|
    ensures rows[i].id == PyTake(Sort(t.scores, HitBefore()), finalN)[i].id
    ensures Inverse(t.byId[rows[i].id].rank) == rows[i].score
  {
    var ranked := Sort(t.scores, HitBefore());
    RankedIsDict(t.scores);
    assert ranked[i] in multiset(t.scores);
    assert ranked[i] in t.scores;
    InDict(t.scores, ranked[i]);
    assert Earned(t, ranked[i].id);
    GetOther(t.scores, ranked[i].id);
  }

  /** Listings of one ranking show the same, whatever rows they take the other fields from. */
  lemma ListedAlike(t: Tally, u: Tally, finalN: int, ranked: seq<Hit>, rows: seq<Row>, otherRows: seq<Row>, i: nat)
    requires IsTally(t) && IsTally(u) && i < |rows|
    requires ranked == PyTake(Sort(t.scores, HitBefore()), finalN) == PyTake(Sort(u.scores, HitBefore()), finalN)
    requires IsListing(t, ranked, |ranked|, rows) && IsListing(u, ranked, |ranked|, otherRows)
    ensures |otherRows| == |rows|
    ensures rows[i].rank == otherRows[i].rank && rows[i].id == otherRows[i].id && rows[i].score == otherRows[i].score
  {
    ListedId(t, finalN, rows, i);
    ListedId(u, finalN, otherRows, i);
  }

  /** So every row shows the same identifier, rank and score. */
  lemma SameRows(run: string -> seq<Row>, some: seq<string>, others: seq<string>, finalN: int,
                 rows: seq<Row>, otherRows: seq<Row>, i: nat)
    requires forall v :: v in some <==> v in others
    requires IsListing(Merge(run, some, |some|), Ranking(run, some, finalN), |Ranking(run, some, finalN)|, rows)
    requires IsListing(Merge(run, others, |others|), Ranking(run, others, finalN),
                       |Ranking(run, others, finalN)|, otherRows)
    requires i < |rows|
    ensures |otherRows| == |rows|
    ensures rows[i].rank == otherRows[i].rank && rows[i].id == otherRows[i].id && rows[i].score == otherRows[i].score
  {
    var t, u := Merge(run, some, |some|), Merge(run, others, |others|);
    VariantOrderIsIrrelevant(run, some, others, finalN);
    MergeIsTally(run, some, |some|);
    MergeIsTally(run, others, |others|);
    ListedAlike(t, u, finalN, Ranking(run, some, finalN), rows, otherRows, i);
  }

  // ----- the score in ranks -----

  /** Some variant shows `id` at rank `r`. */
  ghost predicate IsShownAt(run: string -> seq<Row>, variants: seq<string>, id: string, r: nat) {
    exists v, i :: v in variants && 0 <= i < |run(v)| && run(v)[i].id == id && run(v)[i].rank == r
  }

  lemma {:induction false} BestInIs(results: seq<Row>, id: string, n: nat, r: nat)
    requires n <= |results| && forall i :: 0 <= i < n && results[i].id == id ==> results[i].rank >= r
    ensures BestIn(results, id, n) <= 1.0 / (r + 1) as real
  {
    if n > 0 {
      BestInIs(results, id, n - 1, r);
      if results[n - 1].id == id {
        InverseFalls(r, results[n - 1].rank);
      }
    }
  }

  lemma InverseFalls(a: nat, b: nat)
    requires a <= b
    ensures Inverse(b) <= 1.0 / (a + 1) as real
  {
    Reciprocals((a + 1) as real, (b + 1) as real);
  }

  lemma Reciprocals(x: real, y: real)
    requires 0.0 < x <= y
    ensures 1.0 / y <= 1.0 / x
  {
  }

  lemma {:induction false} BestOfBelow(run: string -> seq<Row>, variants: seq<string>, id: string, n: nat, r: nat)
    requires n <= |variants| && forall q: nat :: IsShownAt(run, variants, id, q) ==> q >= r
    ensures BestOf(run, variants, id, n) <= 1.0 / (r + 1) as real
  {
    if n > 0 {
      var results := run(variants[n - 1]);
      BestOfBelow(run, variants, id, n - 1, r);
      forall i | 0 <= i < |results| && results[i].id == id ensures results[i].rank >= r {
        assert variants[n - 1] in variants;
        assert IsShownAt(run, variants, id, results[i].rank);
      }
      BestInIs(results, id, |results|, r);
    }
  }

  lemma {:induction false} BestInReaches(results: seq<Row>, id: string, n: nat, i: nat)
    requires i < n <= |results| && results[i].id == id
    ensures BestIn(results, id, n) >= 1.0 / (results[i].rank + 1) as real
  {
    if i < n - 1 {
      BestInReaches(results, id, n - 1, i);
    }
  }

  lemma {:induction false} BestOfReaches(run: string -> seq<Row>, variants: seq<string>, id: string, n: nat, k: nat, i: nat)
    requires k < n <= |variants| && i < |run(variants[k])| && run(variants[k])[i].id == id
    ensures BestOf(run, variants, id, n) >= 1.0 / (run(variants[k])[i].rank + 1) as real
  {
    if k < n - 1 {
      BestOfReaches(run, variants, id, n - 1, k, i);
    } else {
      BestInReaches(run(variants[k]), id, |run(variants[k])|, i);
    }
  }

  lemma ShownReaches(run: string -> seq<Row>, variants: seq<string>, id: string, v: string, i: nat, r: nat)
    requires v in variants && i < |run(v)| && run(v)[i].id == id && run(v)[i].rank == r
    ensures BestOf(run, variants, id, |variants|) >= 1.0 / (r + 1) as real
  {
    var k :| 0 <= k < |variants| && variants[k] == v;
    BestOfReaches(run, variants, id, |variants|, k, i);
  }

  lemma BestIsReached(run: string -> seq<Row>, variants: seq<string>, id: string, r: nat)
    requires IsShownAt(run, variants, id, r)
    ensures BestOf(run, variants, id, |variants|) >= 1.0 / (r + 1) as real
  {
    var v, i :| v in variants && 0 <= i < |run(v)| && run(v)[i].id == id && run(v)[i].rank == r;
    ShownReaches(run, variants, id, v, i, r);
  }

  lemma BestIsInverse(run: string -> seq<Row>, variants: seq<string>, id: string, r: nat)
    requires IsShownAt(run, variants, id, r) && forall q: nat :: IsShownAt(run, variants, id, q) ==> q >= r
    ensures BestOf(run, variants, id, |variants|) == 1.0 / (r + 1) as real
  {
    BestIsReached(run, variants, id, r);
    BestOfBelow(run, variants, id, |variants|, r);
  }

  lemma HeldScore(t: Tally, id: string, best: real, r: nat)
    requires Holds(t, id, best) && best == 1.0 / (r + 1) as real
    ensures Has(t.scores, id) && Get(t.scores, id, -1.0) == 1.0 / (r + 1) as real
  {
  }

  /** A chunk's merged score is `1 / (r + 1)` for the best rank `r` at which a variant shows it. */
  lemma MergedScoreIsBestRank(run: string -> seq<Row>, variants: seq<string>, id: string, r: nat, t: Tally)
    requires IsShownAt(run, variants, id, r) && forall q: nat :: IsShownAt(run, variants, id, q) ==> q >= r
    requires t == Merge(run, variants, |variants|)
    ensures Has(t.scores, id) && Get(t.scores, id, -1.0) == 1.0 / (r + 1) as real
  {
    var best := BestOf(run, variants, id, |variants|);
    MergeTakesMax(run, variants, id, |variants|);
    BestIsInverse(run, variants, id, r);
    HeldScore(t, id, best, r);
  }

  // ----- which row is kept -----

  /** The rows of the first `n` variants, one variant after the other. */
  function Listed(run: string -> seq<Row>, variants: seq<string>, n: nat): seq<Row>
    requires n <= |variants|
  {
    if n == 0 then [] else Listed(run, variants, n - 1) + run(variants[n - 1])
  }

  lemma {:induction false} OfferAllOfPrefix(t: Tally, a: seq<Row>, b: seq<Row>, n: nat)
    requires n <= |a|
    ensures OfferAll(t, a + b, n) == OfferAll(t, a, n)
  {
    if n > 0 {
      OfferAllOfPrefix(t, a, b, n - 1);
    }
  }

  lemma NextOffer(t: Tally, rows: seq<Row>, n: nat, before: Tally, row: Row)
    requires 0 < n <= |rows| && rows[n - 1] == row && OfferAll(t, rows, n - 1) == before
    ensures OfferAll(t, rows, n) == Offer(before, row)
  {
  }

  lemma {:induction false} OfferAllJoins(t: Tally, a: seq<Row>, b: seq<Row>, all: seq<Row>, n: nat)
    requires n <= |b| && all == a + b
    ensures OfferAll(t, all, |a| + n) == OfferAll(OfferAll(t, a, |a|), b, n)
  {
    if n == 0 {
      OfferAllOfPrefix(t, a, b, |a|);
    } else {
      OfferAllJoins(t, a, b, all, n - 1);
      var before := OfferAll(t, all, |a| + n - 1);
      NextOffer(t, all, |a| + n, before, b[n - 1]);
      NextOffer(OfferAll(t, a, |a|), b, n, before, b[n - 1]);
    }
  }

  lemma {:induction false} MergeOffersListed(run: string -> seq<Row>, variants: seq<string>, n: nat, rows: seq<Row>)
    requires n <= |variants| && rows == Listed(run, variants, n)
    ensures Merge(run, variants, n) == OfferAll(Tally([], map[]), rows, |rows|)
  {
    if n > 0 {
      var before := Listed(run, variants, n - 1);
      MergeOffersListed(run, variants, n - 1, before);
      OfferAllJoins(Tally([], map[]), before, run(variants[n - 1]), rows, |run(variants[n - 1])|);
    }
  }

  /** Place `i` is the first of the best ranks among the first `n` rows for `id`. */
  ghost predicate IsFirstBest(rows: seq<Row>, n: nat, id: string, i: nat)
    requires n <= |rows|
  {
    && i < n && rows[i].id == id
    && (forall j :: 0 <= j < n && rows[j].id == id ==> rows[i].rank <= rows[j].rank)
    && (forall j :: 0 <= j < i && rows[j].id == id ==> rows[i].rank < rows[j].rank)
  }

  lemma InverseIff(a: nat, b: nat)
    ensures Inverse(a) > Inverse(b) <==> a < b
  {
    if a < b {
      Shrinks((a + 1) as real, (b + 1) as real);
    } else {
      InverseFalls(b, a);
    }
  }

  lemma Shrinks(x: real, y: real)
    requires 0.0 < x < y
    ensures 1.0 / y < 1.0 / x
  {
  }

  lemma OfferIs(t: Tally, row: Row)
    requires IsTally(t)
    ensures Has(t.scores, row.id) ==> row.id in t.byId
    ensures Offer(t, row)
         == if !Has(t.scores, row.id) || row.rank < t.byId[row.id].rank
            then Tally(Put(t.scores, row.id, Inverse(row.rank)), t.byId[row.id := row]) else t
  {
    assert Earned(t, row.id);
    if Has(t.scores, row.id) {
      InverseIff(row.rank, t.byId[row.id].rank);
    }
  }

  /** What offering `row` does for `id`. */
  lemma OfferFor(t: Tally, row: Row, id: string, u: Tally)
    requires IsTally(t) && u == Offer(t, row) && (Has(t.scores, id) ==> id in t.byId)
    ensures Has(u.scores, id) <==> Has(t.scores, id) || row.id == id
    ensures Has(u.scores, id) ==> id in u.byId
    ensures Has(u.scores, id) ==>
              u.byId[id] == if row.id == id && (!Has(t.scores, id) || row.rank < t.byId[id].rank) then row else t.byId[id]
  {
    OfferIs(t, row);
    GetOfPut(t.scores, row.id, Inverse(row.rank), id, 0.0);
  }

  lemma FirstBestGrows(rows: seq<Row>, n: nat, id: string, i: nat, has: bool, next: nat)
    requires 0 < n <= |rows| && (has ==> IsFirstBest(rows, n - 1, id, i))
    requires !has ==> forall j :: 0 <= j < n - 1 ==> rows[j].id != id
    requires next == if rows[n - 1].id == id && (!has || rows[n - 1].rank < rows[i].rank) then n - 1 else i
    ensures has || rows[n - 1].id == id ==> IsFirstBest(rows, n, id, next)
    ensures !has && rows[n - 1].id != id ==> forall j :: 0 <= j < n ==> rows[j].id != id
  {
  }

  lemma {:induction false} OfferedIsFirstBest(rows: seq<Row>, n: nat, id: string, t: Tally) returns (i: nat)
    requires n <= |rows| && t == OfferAll(Tally([], map[]), rows, n)
    ensures !Has(t.scores, id) ==> forall j :: 0 <= j < n ==> rows[j].id != id
    ensures Has(t.scores, id) ==> IsFirstBest(rows, n, id, i) && id in t.byId && t.byId[id] == rows[i]
  {
    i := 0;
    if n > 0 {
      var before := OfferAll(Tally([], map[]), rows, n - 1);
      var k := OfferedIsFirstBest(rows, n - 1, id, before);
      var has, row := Has(before.scores, id), rows[n - 1];
      OfferAllIsTally(Tally([], map[]), rows, n - 1);
      OfferFor(before, row, id, t);
      i := if row.id == id && (!has || row.rank < rows[k].rank) then n - 1 else k;
      FirstBestGrows(rows, n, id, k, has, i);
    }
  }

  /** The other columns of a merged row are those of the first of its best ranks. */
  lemma MergedRowIsFirstBest(run: string -> seq<Row>, variants: seq<string>, id: string, t: Tally, rows: seq<Row>)
    returns (i: nat)
    requires t == Merge(run, variants, |variants|) && rows == Listed(run, variants, |variants|)
    requires Has(t.scores, id)
    ensures IsFirstBest(rows, |rows|, id, i) && id in t.byId && t.byId[id] == rows[i]
  {
    MergeOffersListed(run, variants, |variants|, rows);
    i := OfferedIsFirstBest(rows, |rows|, id, t);
  }

  /** A listed row shows its rank, its merged score, and the other columns of that row. */
  lemma ListedShows(t: Tally, ranked: seq<Hit>, n: nat, rows: seq<Row>, i: nat)
    requires n <= |ranked| && IsListing(t, ranked, n, rows) && i < n
    ensures ranked[i].id in t.byId
    ensures rows[i].rank == i + 1 && rows[i].score == ranked[i].score
    ensures rows[i].id == t.byId[ranked[i].id].id && rows[i].fused == t.byId[ranked[i].id].fused
    ensures rows[i].reranker == t.byId[ranked[i].id].reranker
  {
  }

  // ----- the order of the rows -----

  /** Merged rows fall by score, and stand by identifier where scores are equal. */
  lemma MergedRowsFall(t: Tally, ranked: seq<Hit>, finalN: int, rows: seq<Row>, i: nat, j: nat)
    requires IsTally(t) && ranked == PyTake(Sort(t.scores, HitBefore()), finalN)
    requires IsListing(t, ranked, |ranked|, rows) && i < j < |rows|
    ensures rows[i].score >= rows[j].score
    ensures rows[i].score == rows[j].score ==> StringLess()(ranked[i].id, ranked[j].id)
  {
    RankedIsDict(t.scores);
    assert !HitBefore()(ranked[j], ranked[i]) && ranked[i].id != ranked[j].id;
    StringsAreOrdered();
    assert Decides(StringLess(), ranked[i].id, ranked[j].id);
    ListedShows(t, ranked, |ranked|, rows, i);
    ListedShows(t, ranked, |ranked|, rows, j);
  }
}
