/** Scored identifiers: dictionaries of scores in insertion order, their ranking by
    (score descending, identifier ascending), and Python's `[:k]`. */
module Hits {
  import opened Ordering

  datatype Hit = Hit(id: string, score: real)

  /** The sort key `(-score, id)`. */
  function HitBefore(): (Hit, Hit) -> bool {
    (a: Hit, b: Hit) => a.score > b.score || (a.score == b.score && StringLess()(a.id, b.id))
  }

  lemma HitsAreOrdered()
    ensures StrictTotal(HitBefore())
  {
    var less := HitBefore();
    StringsAreOrdered();
    forall a, b, c ensures Chains(less, a, b, c) {
      assert Chains(StringLess(), a.id, b.id, c.id);
    }
    forall a, b ensures Decides(less, a, b) {
      assert Decides(StringLess(), a.id, b.id);
    }
  }

  /** `s[:k]`, where a negative `k` counts from the end. */
  function PyTake<T>(s: seq<T>, k: int): (r: seq<T>)
    ensures r <= s
    ensures |r| == if k < 0 then (if |s| + k < 0 then 0 else |s| + k) else if k < |s| then k else |s|
  {
    if k < 0 then (if |s| + k < 0 then [] else s[..|s| + k])
    else if k < |s| then s[..k] else s
  }

  // ----- dictionaries -----

  ghost predicate IsDict(d: seq<Hit>) {
    forall i, j :: 0 <= i < j < |d| ==> d[i].id != d[j].id
  }

  /** The last place among the first `n` that holds `id`, or the length of `d`. */
  function Position(d: seq<Hit>, id: string, n: nat): (p: nat)
    requires n <= |d|
    ensures p == |d| || (p < n && d[p].id == id)
  {
    if n == 0 then |d| else if d[n - 1].id == id then n - 1 else Position(d, id, n - 1)
  }

  lemma {:induction false} PositionMisses(d: seq<Hit>, id: string, n: nat, i: nat)
    requires i < n <= |d| && Position(d, id, n) == |d|
    ensures d[i].id != id
  {
    if i < n - 1 {
      PositionMisses(d, id, n - 1, i);
    }
  }

  predicate Has(d: seq<Hit>, id: string) {
    Position(d, id, |d|) < |d|
  }

  /** `d.get(id, other)` */
  function Get(d: seq<Hit>, id: string, other: real): real {
    var p := Position(d, id, |d|);
    if p < |d| then d[p].score else other
  }

  /** `d[id] = score` */
  function Put(d: seq<Hit>, id: string, score: real): seq<Hit> {
    var p := Position(d, id, |d|);
    if p < |d| then d[p := Hit(id, score)] else d + [Hit(id, score)]
  }

  lemma Found(d: seq<Hit>, i: nat)
    requires IsDict(d) && i < |d|
    ensures Position(d, d[i].id, |d|) == i
  {
    var p := Position(d, d[i].id, |d|);
    if p == |d| {
      PositionMisses(d, d[i].id, |d|, i);
    }
  }

  /** What a dictionary holds is what looking up finds. */
  lemma InDict(d: seq<Hit>, h: Hit)
    requires IsDict(d)
    ensures h in d <==> Has(d, h.id) && Get(d, h.id, 0.0) == h.score
  {
    if h in d {
      var i :| 0 <= i < |d| && d[i] == h;
      Found(d, i);
    } else if Has(d, h.id) {
      assert d[Position(d, h.id, |d|)] != h;
    }
  }

  lemma HasNone(d: seq<Hit>, id: string, i: nat)
    requires !Has(d, id) && i < |d|
    ensures d[i].id != id
  {
    PositionMisses(d, id, |d|, i);
  }

  lemma PutIsDict(d: seq<Hit>, id: string, score: real)
    requires IsDict(d)
    ensures IsDict(Put(d, id, score))
  {
    if !Has(d, id) {
      forall i | 0 <= i < |d| ensures d[i].id != id {
        HasNone(d, id, i);
      }
    }
  }

  /** A stored score is read back, and the others stay. */
  lemma GetOfPut(d: seq<Hit>, id: string, score: real, x: string, other: real)
    requires IsDict(d)
    ensures Has(Put(d, id, score), x) <==> x == id || Has(d, x)
    ensures Get(Put(d, id, score), x, other) == if x == id then score else Get(d, x, other)
  {
    var e, p := Put(d, id, score), Position(d, id, |d|);
    PutIsDict(d, id, score);
    if x == id {
      Found(e, p);
    } else if Has(d, x) {
      Found(e, Position(d, x, |d|));
    } else if Has(e, x) {
      HasNone(d, x, Position(e, x, |e|));
    }
  }

  // ----- filtering and ranking -----

  /** The entries among the first `n` whose score is positive. */
  function Positive(d: seq<Hit>, n: nat): (r: seq<Hit>)
    requires n <= |d|
  {
    if n == 0 then []
    else if d[n - 1].score > 0.0 then Positive(d, n - 1) + [d[n - 1]]
    else Positive(d, n - 1)
  }

  lemma {:induction false} InPositive(d: seq<Hit>, n: nat, h: Hit)
    requires n <= |d|
    ensures h in Positive(d, n) <==> h.score > 0.0 && exists i :: 0 <= i < n && d[i] == h
  {
    if n > 0 {
      InPositive(d, n - 1, h);
    }
  }

  lemma {:induction false} PositiveIsDict(d: seq<Hit>, n: nat)
    requires IsDict(d) && n <= |d|
    ensures IsDict(Positive(d, n))
  {
    if n > 0 {
      PositiveIsDict(d, n - 1);
      var r := Positive(d, n - 1);
      forall i | 0 <= i < |r| ensures r[i].id != d[n - 1].id {
        InPositive(d, n - 1, r[i]);
      }
    }
  }

  ghost predicate SameEntry(d: seq<Hit>, e: seq<Hit>, id: string) {
    Has(d, id) == Has(e, id) && Get(d, id, 0.0) == Get(e, id, 0.0)
  }

  lemma DictIsDistinct(d: seq<Hit>)
    requires IsDict(d)
    ensures Distinct(d)
  {
  }

  lemma SameEntries(d: seq<Hit>, e: seq<Hit>)
    requires IsDict(d) && IsDict(e) && forall id :: SameEntry(d, e, id)
    ensures multiset(d) == multiset(e)
  {
    DictIsDistinct(d);
    DictIsDistinct(e);
    forall h ensures h in d <==> h in e {
      assert SameEntry(d, e, h.id);
      InDict(d, h);
      InDict(e, h);
    }
    SameMultiset(d, e);
  }

  /** `sorted(d.items(), key=...)` depends on the dictionary's entries alone, not on the
      order they were inserted in. */
  lemma RankingOfEntries(d: seq<Hit>, e: seq<Hit>)
    requires IsDict(d) && IsDict(e) && forall id :: SameEntry(d, e, id)
    ensures Sort(d, HitBefore()) == Sort(e, HitBefore())
  {
    HitsAreOrdered();
    SameEntries(d, e);
    SortSorts(d, HitBefore());
    SortSorts(e, HitBefore());
    SortedUnique(Sort(d, HitBefore()), Sort(e, HitBefore()), HitBefore());
  }

  lemma SameMultisetIsDict(d: seq<Hit>, e: seq<Hit>)
    requires IsDict(d) && multiset(d) == multiset(e)
    ensures IsDict(e)
  {
    DictIsDistinct(d);
    StaysDistinct(d, e);
    forall i, j | 0 <= i < j < |e| ensures e[i].id != e[j].id {
      SameMembers(d, e, e[i]);
      SameMembers(d, e, e[j]);
      InDict(d, e[i]);
      InDict(d, e[j]);
    }
  }

  /** Sorting a dictionary's entries lists the same entries, each identifier once. */
  lemma RankedIsDict(d: seq<Hit>)
    requires IsDict(d)
    ensures IsDict(Sort(d, HitBefore())) && Sorted(Sort(d, HitBefore()), HitBefore())
    ensures multiset(Sort(d, HitBefore())) == multiset(d)
  {
    HitsAreOrdered();
    SortSorts(d, HitBefore());
    SameMultisetIsDict(d, Sort(d, HitBefore()));
  }
}
