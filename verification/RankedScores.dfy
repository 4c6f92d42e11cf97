/** The scores of a ranked list depend on the scores alone, also where they tie. */
module RankedScores {
  import opened Ordering
  import opened Hits
  import opened Fusion

  function MappedTo<T>(s: seq<T>, f: T -> real, n: nat): (r: seq<real>)
    requires n <= |s|
    ensures |r| == n && forall i :: 0 <= i < n ==> r[i] == f(s[i])
  {
    if n == 0 then [] else MappedTo(s, f, n - 1) + [f(s[n - 1])]
  }

  function Mapped<T>(s: seq<T>, f: T -> real): (r: seq<real>)
    ensures |r| == |s| && forall i :: 0 <= i < |s| ==> r[i] == f(s[i])
  {
    MappedTo(s, f, |s|)
  }

  lemma AllButOne(x: seq<real>, y: seq<real>, j: nat)
    requires j < |x| && y == x[..j] + x[j + 1..]
    ensures multiset(x) == multiset(y) + multiset{x[j]}
  {
    assert x == x[..j] + [x[j]] + x[j + 1..];
    AroundKeeps(x[..j], x[j], x[j + 1..]);
  }

  lemma MappedAllButOne<T>(s: seq<T>, rest: seq<T>, f: T -> real, j: nat)
    requires j < |s| && rest == s[..j] + s[j + 1..]
    ensures multiset(Mapped(s, f)) == multiset(Mapped(rest, f)) + multiset{f(s[j])}
  {
    var x, y := Mapped(s, f), Mapped(rest, f);
    forall i | 0 <= i < |y| ensures y[i] == (x[..j] + x[j + 1..])[i] {
      assert rest[i] == s[if i < j then i else i + 1];
    }
    AllButOne(x, y, j);
  }

  /** Rearranging elements rearranges their values. */
  lemma {:induction false} MappedKeeps<T>(s: seq<T>, t: seq<T>, f: T -> real)
    requires multiset(s) == multiset(t)
    ensures multiset(Mapped(s, f)) == multiset(Mapped(t, f))
  {
    SameLength(s, t);
    if s != [] {
      var n := |s| - 1;
      assert s[n] in multiset(s);
      assert s[n] in multiset(t);
      var j :| 0 <= j < |t| && t[j] == s[n];
      WithoutLast(s);
      OneLess(t, j);
      MappedKeeps(s[..n], t[..j] + t[j + 1..], f);
      assert s[..n] == s[..n] + s[n + 1..];
      MappedAllButOne(s, s[..n], f, n);
      MappedAllButOne(t, t[..j] + t[j + 1..], f, j);
    }
  }

  lemma OneLess<T>(t: seq<T>, j: nat)
    requires j < |t|
    ensures multiset(t[..j] + t[j + 1..]) == multiset(t) - multiset{t[j]}
  {
    assert t == t[..j] + [t[j]] + t[j + 1..];
  }

  function Score(): Hit -> real {
    (h: Hit) => h.score
  }

  function Scores(d: seq<Hit>): (r: seq<real>)
    ensures |r| == |d| && forall i :: 0 <= i < |d| ==> r[i] == d[i].score
  {
    Mapped(d, Score())
  }

  // ----- the positive scores -----

  function AboveZero(x: seq<real>, n: nat): seq<real>
    requires n <= |x|
  {
    if n == 0 then [] else if x[n - 1] > 0.0 then AboveZero(x, n - 1) + [x[n - 1]] else AboveZero(x, n - 1)
  }

  lemma CountSnoc<T>(s: seq<T>, x: T, y: T)
    ensures multiset(s + [x])[y] == multiset(s)[y] + if x == y then 1 else 0
  {
  }

  lemma {:induction false} CountAboveZero(x: seq<real>, n: nat, v: real)
    requires n <= |x|
    ensures multiset(AboveZero(x, n))[v] == if v > 0.0 then multiset(x[..n])[v] else 0
  {
    if n > 0 {
      CountAboveZero(x, n - 1, v);
      assert x[..n] == x[..n - 1] + [x[n - 1]];
      CountSnoc(x[..n - 1], x[n - 1], v);
      CountSnoc(AboveZero(x, n - 1), x[n - 1], v);
    }
  }

  lemma AboveZeroKeeps(x: seq<real>, y: seq<real>)
    requires multiset(x) == multiset(y)
    ensures multiset(AboveZero(x, |x|)) == multiset(AboveZero(y, |y|))
  {
    assert x[..|x|] == x && y[..|y|] == y;
    forall v ensures multiset(AboveZero(x, |x|))[v] == multiset(AboveZero(y, |y|))[v] {
      CountAboveZero(x, |x|, v);
      CountAboveZero(y, |y|, v);
    }
  }

  lemma ScoresSnoc(d: seq<Hit>, h: Hit)
    ensures Scores(d + [h]) == Scores(d) + [h.score]
  {
  }

  lemma {:induction false} PositiveScores(d: seq<Hit>, x: seq<real>, n: nat)
    requires x == Scores(d) && n <= |d|
    ensures Scores(Positive(d, n)) == AboveZero(x, n)
  {
    if n > 0 {
      PositiveScores(d, x, n - 1);
      ScoresSnoc(Positive(d, n - 1), d[n - 1]);
    }
  }

  // ----- the ranked scores -----

  function Falls(): (real, real) -> bool {
    (x: real, y: real) => x > y
  }

  lemma FallsIsTotal()
    ensures StrictTotal(Falls())
  {
    forall x, y, z ensures Chains(Falls(), x, y, z) {
    }
    forall x, y ensures Decides(Falls(), x, y) {
    }
  }

  lemma ScoresFall(s: seq<Hit>)
    requires Sorted(s, HitBefore())
    ensures Sorted(Scores(s), Falls())
  {
    forall i, j | 0 <= i < j < |s| ensures !Falls()(Scores(s)[j], Scores(s)[i]) {
      assert !HitBefore()(s[j], s[i]);
    }
  }

  lemma SortedScores(d: seq<Hit>, s: seq<Hit>)
    requires s == Sort(d, HitBefore())
    ensures Sorted(Scores(s), Falls()) && multiset(Scores(s)) == multiset(Scores(d))
  {
    HitsAreOrdered();
    SortSorts(d, HitBefore());
    ScoresFall(s);
    MappedKeeps(s, d, Score());
  }

  lemma RankedAlike(d: seq<Hit>, e: seq<Hit>)
    requires multiset(Scores(d)) == multiset(Scores(e))
    ensures Scores(Sort(d, HitBefore())) == Scores(Sort(e, HitBefore()))
  {
    var s, t := Sort(d, HitBefore()), Sort(e, HitBefore());
    SortedScores(d, s);
    SortedScores(e, t);
    FallsIsTotal();
    SortedUnique(Scores(s), Scores(t), Falls());
  }

  /** Lists with the same scores rank them alike: at every rank both show the same score. */
  lemma TopScoresAgree(d: seq<Hit>, e: seq<Hit>, topK: int)
    requires multiset(Scores(d)) == multiset(Scores(e))
    ensures Scores(TopRank(d, topK)) == Scores(TopRank(e, topK))
  {
    var p, q := Positive(d, |d|), Positive(e, |e|);
    PositiveScores(d, Scores(d), |d|);
    PositiveScores(e, Scores(e), |e|);
    AboveZeroKeeps(Scores(d), Scores(e));
    RankedAlike(p, q);
    SameLength(Scores(p), Scores(q));
    TakeScores(Sort(p, HitBefore()), Sort(q, HitBefore()), topK);
  }

  lemma TakeScores(s: seq<Hit>, t: seq<Hit>, k: int)
    requires Scores(s) == Scores(t)
    ensures Scores(PyTake(s, k)) == Scores(PyTake(t, k))
  {
    var x, y := Scores(PyTake(s, k)), Scores(PyTake(t, k));
    assert |s| == |Scores(s)| == |Scores(t)| == |t|;
    forall i | 0 <= i < |x| ensures x[i] == y[i] {
      assert x[i] == Scores(s)[i] && y[i] == Scores(t)[i];
    }
  }
}
