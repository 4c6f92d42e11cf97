/** Sorting under a strict total order, and the order of strings by code points. */
module Ordering {
  predicate Chains<T>(less: (T, T) -> bool, x: T, y: T, z: T) {
    less(x, y) && less(y, z) ==> less(x, z)
  }

  predicate Decides<T(==)>(less: (T, T) -> bool, x: T, y: T) {
    (less(x, y) ==> !less(y, x)) && (x == y || less(x, y) || less(y, x))
  }

  ghost predicate StrictTotal<T(!new)>(less: (T, T) -> bool) {
    && (forall x, y, z :: Chains(less, x, y, z))
    && (forall x, y :: Decides(less, x, y))
  }

  ghost predicate Sorted<T>(s: seq<T>, less: (T, T) -> bool) {
    forall i, j :: 0 <= i < j < |s| ==> !less(s[j], s[i])
  }

  /** How many of the first `n` elements of a sorted sequence stay before `x`. */
  function Place<T>(x: T, s: seq<T>, less: (T, T) -> bool, n: nat): (k: nat)
    requires n <= |s|
    ensures k <= n
  {
    if n > 0 && less(x, s[n - 1]) then Place(x, s, less, n - 1) else n
  }

  function Insert<T>(x: T, s: seq<T>, less: (T, T) -> bool): (r: seq<T>)
    ensures |r| == |s| + 1
  {
    var k := Place(x, s, less, |s|);
    s[..k] + [x] + s[k..]
  }

  function SortTo<T>(s: seq<T>, less: (T, T) -> bool, n: nat): (r: seq<T>)
    requires n <= |s|
    ensures |r| == n
  {
    if n == 0 then [] else Insert(s[n - 1], SortTo(s, less, n - 1), less)
  }

  /** `sorted` */
  function Sort<T>(s: seq<T>, less: (T, T) -> bool): (r: seq<T>)
    ensures |r| == |s|
  {
    SortTo(s, less, |s|)
  }

  lemma {:induction false} PlaceFacts<T(!new)>(x: T, s: seq<T>, less: (T, T) -> bool, n: nat)
    requires StrictTotal(less) && n <= |s| && Sorted(s, less)
    ensures var k := Place(x, s, less, n);
            && (forall i :: k <= i < n ==> !less(s[i], x))
            && (forall i :: 0 <= i < k ==> !less(x, s[i]))
  {
    if n > 0 {
      var last := s[n - 1];
      assert Decides(less, x, last);
      if less(x, last) {
        PlaceFacts(x, s, less, n - 1);
      } else {
        forall i | 0 <= i < n ensures !less(x, s[i]) {
          if i < n - 1 {
            assert !less(last, s[i]);
            assert Decides(less, last, x) && Decides(less, s[i], last) && Chains(less, x, s[i], last);
          }
        }
      }
    }
  }

  lemma InsertedAt<T>(x: T, s: seq<T>, k: nat, r: seq<T>, i: nat)
    requires k <= |s| && r == s[..k] + [x] + s[k..] && i < |r|
    ensures r[i] == if i < k then s[i] else if i == k then x else s[i - 1]
  {
  }

  lemma InsertSorts<T>(x: T, s: seq<T>, less: (T, T) -> bool, k: nat, r: seq<T>)
    requires Sorted(s, less) && k <= |s| && r == s[..k] + [x] + s[k..]
    requires forall i :: k <= i < |s| ==> !less(s[i], x)
    requires forall i :: 0 <= i < k ==> !less(x, s[i])
    ensures Sorted(r, less)
  {
    forall i, j | 0 <= i < j < |r| ensures !less(r[j], r[i]) {
      InsertedAt(x, s, k, r, i);
      InsertedAt(x, s, k, r, j);
    }
  }

  lemma AroundKeeps<T>(before: seq<T>, x: T, after: seq<T>)
    ensures multiset(before + [x] + after) == multiset(before + after) + multiset{x}
  {
    assert multiset(before + [x]) == multiset(before) + multiset{x};
    assert multiset(before + after) == multiset(before) + multiset(after);
  }

  lemma InsertKeeps<T>(x: T, s: seq<T>, less: (T, T) -> bool)
    ensures multiset(Insert(x, s, less)) == multiset(s) + multiset{x}
  {
    var k := Place(x, s, less, |s|);
    assert s == s[..k] + s[k..];
    AroundKeeps(s[..k], x, s[k..]);
  }

  lemma InsertionSorts<T(!new)>(x: T, s: seq<T>, less: (T, T) -> bool)
    requires StrictTotal(less) && Sorted(s, less)
    ensures Sorted(Insert(x, s, less), less)
  {
    var k := Place(x, s, less, |s|);
    PlaceFacts(x, s, less, |s|);
    InsertSorts(x, s, less, k, Insert(x, s, less));
  }

  lemma {:induction false} SortToSorts<T(!new)>(s: seq<T>, less: (T, T) -> bool, n: nat)
    requires StrictTotal(less) && n <= |s|
    ensures Sorted(SortTo(s, less, n), less)
  {
    if n > 0 {
      SortToSorts(s, less, n - 1);
      InsertionSorts(s[n - 1], SortTo(s, less, n - 1), less);
    }
  }

  lemma PrefixGrows<T>(s: seq<T>, n: nat)
    requires 0 < n <= |s|
    ensures multiset(s[..n]) == multiset(s[..n - 1]) + multiset{s[n - 1]}
  {
    assert s[..n] == s[..n - 1] + [s[n - 1]];
  }

  lemma {:induction false} SortToKeeps<T>(s: seq<T>, less: (T, T) -> bool, n: nat)
    requires n <= |s|
    ensures multiset(SortTo(s, less, n)) == multiset(s[..n])
  {
    if n > 0 {
      SortToKeeps(s, less, n - 1);
      InsertKeeps(s[n - 1], SortTo(s, less, n - 1), less);
      PrefixGrows(s, n);
    }
  }

  lemma SortSorts<T(!new)>(s: seq<T>, less: (T, T) -> bool)
    requires StrictTotal(less)
    ensures Sorted(Sort(s, less), less) && multiset(Sort(s, less)) == multiset(s)
  {
    SortToSorts(s, less, |s|);
    SortToKeeps(s, less, |s|);
    assert s[..|s|] == s;
  }

  lemma WithoutLast<T>(s: seq<T>)
    requires s != []
    ensures multiset(s[..|s| - 1]) == multiset(s) - multiset{s[|s| - 1]}
  {
    assert s == s[..|s| - 1] + [s[|s| - 1]];
  }

  lemma SameBefore<T>(s: seq<T>, t: seq<T>)
    requires |s| == |t| > 0 && s[|s| - 1] == t[|t| - 1] && multiset(s) == multiset(t)
    ensures multiset(s[..|s| - 1]) == multiset(t[..|t| - 1])
  {
    WithoutLast(s);
    WithoutLast(t);
  }

  lemma SameWithLast<T>(s: seq<T>, t: seq<T>)
    requires |s| == |t| > 0 && s[|s| - 1] == t[|t| - 1] && s[..|s| - 1] == t[..|t| - 1]
    ensures s == t
  {
    assert s == s[..|s| - 1] + [s[|s| - 1]];
    assert t == t[..|t| - 1] + [t[|t| - 1]];
  }

  lemma SortedPrefix<T>(s: seq<T>, less: (T, T) -> bool, n: nat)
    requires Sorted(s, less) && n <= |s|
    ensures Sorted(s[..n], less)
  {
  }

  lemma SameLength<T>(s: seq<T>, t: seq<T>)
    requires multiset(s) == multiset(t)
    ensures |s| == |t|
  {
    assert |multiset(s)| == |s| && |multiset(t)| == |t|;
  }

  /** Two sorted arrangements of the same elements are the same. */
  lemma {:induction false} SortedUnique<T(!new)>(s: seq<T>, t: seq<T>, less: (T, T) -> bool)
    requires StrictTotal(less) && Sorted(s, less) && Sorted(t, less) && multiset(s) == multiset(t)
    ensures s == t
  {
    SameLength(s, t);
    if s != [] {
      var n := |s| - 1;
      SameLast(s, t, less);
      SameBefore(s, t);
      SortedPrefix(s, less, n);
      SortedPrefix(t, less, n);
      SortedUnique(s[..n], t[..n], less);
      SameWithLast(s, t);
    }
  }

  lemma SameLast<T(!new)>(s: seq<T>, t: seq<T>, less: (T, T) -> bool)
    requires StrictTotal(less) && Sorted(s, less) && Sorted(t, less) && multiset(s) == multiset(t)
    requires |s| == |t| > 0
    ensures s[|s| - 1] == t[|t| - 1]
  {
    LastNotAfter(s, t, less);
    LastNotAfter(t, s, less);
    assert Decides(less, s[|s| - 1], t[|t| - 1]);
  }

  lemma LastNotAfter<T(!new)>(s: seq<T>, t: seq<T>, less: (T, T) -> bool)
    requires StrictTotal(less) && Sorted(t, less) && multiset(s) == multiset(t) && |s| == |t| > 0
    ensures !less(t[|t| - 1], s[|s| - 1])
  {
    var x := s[|s| - 1];
    assert Decides(less, x, x);
    assert x in multiset(s);
    assert x in multiset(t);
    var i :| 0 <= i < |t| && t[i] == x;
    if i < |t| - 1 {
      assert !less(t[|t| - 1], t[i]);
    }
  }

  /** What is sorted already, is its own sorting. */
  lemma SortOfSorted<T(!new)>(s: seq<T>, t: seq<T>, less: (T, T) -> bool)
    requires StrictTotal(less) && Sorted(s, less) && multiset(s) == multiset(t)
    ensures Sort(t, less) == s
  {
    SortSorts(t, less);
    SortedUnique(Sort(t, less), s, less);
  }

  // ----- sequences without repetition -----

  ghost predicate Distinct<T>(s: seq<T>) {
    forall i, j :: 0 <= i < j < |s| ==> s[i] != s[j]
  }

  lemma {:induction false} DistinctCounts<T>(s: seq<T>, n: nat, x: T)
    requires Distinct(s) && n <= |s|
    ensures multiset(s[..n])[x] == if exists i :: 0 <= i < n && s[i] == x then 1 else 0
  {
    if n > 0 {
      DistinctCounts(s, n - 1, x);
      PrefixGrows(s, n);
    }
  }

  lemma CountInDistinct<T>(s: seq<T>, x: T)
    requires Distinct(s)
    ensures multiset(s)[x] == if x in s then 1 else 0
  {
    DistinctCounts(s, |s|, x);
    assert s[..|s|] == s;
  }

  lemma SameMembers<T>(s: seq<T>, t: seq<T>, x: T)
    requires multiset(s) == multiset(t)
    ensures x in s <==> x in t
  {
    assert x in s <==> x in multiset(s);
    assert x in t <==> x in multiset(t);
  }

  lemma SameMultiset<T(!new)>(s: seq<T>, t: seq<T>)
    requires Distinct(s) && Distinct(t) && forall x :: x in s <==> x in t
    ensures multiset(s) == multiset(t)
  {
    forall x ensures multiset(s)[x] == multiset(t)[x] {
      CountInDistinct(s, x);
      CountInDistinct(t, x);
    }
  }

  lemma TwiceIn<T>(s: seq<T>, i: nat, j: nat)
    requires i < j < |s| && s[i] == s[j]
    ensures multiset(s)[s[i]] >= 2
  {
    assert s == s[..j] + s[j..];
    assert s[i] in s[..j] && s[i] in s[j..];
    assert multiset(s) == multiset(s[..j]) + multiset(s[j..]);
  }

  lemma StaysDistinct<T>(s: seq<T>, t: seq<T>)
    requires Distinct(s) && multiset(s) == multiset(t)
    ensures Distinct(t)
  {
    forall i, j | 0 <= i < j < |t| ensures t[i] != t[j] {
      if t[i] == t[j] {
        CountInDistinct(s, t[i]);
        TwiceIn(t, i, j);
      }
    }
  }

  // ----- strings -----

  function LessFrom(a: string, b: string, i: nat): bool
    requires i <= |a| && i <= |b|
    decreases |a| - i
  {
    i < |b| && (i == |a| || a[i] < b[i] || (a[i] == b[i] && LessFrom(a, b, i + 1)))
  }

  /** The order of `sorted` on strings: by code points, a prefix first. */
  function StringLess(): (string, string) -> bool {
    (a: string, b: string) => LessFrom(a, b, 0)
  }

  lemma {:induction false} LessTrans(a: string, b: string, c: string, i: nat)
    requires i <= |a| && i <= |b| && i <= |c| && LessFrom(a, b, i) && LessFrom(b, c, i)
    ensures LessFrom(a, c, i)
    decreases |a| - i
  {
    if i < |a| && a[i] == b[i] == c[i] {
      LessTrans(a, b, c, i + 1);
    }
  }

  lemma {:induction false} LessAsymmetric(a: string, b: string, i: nat)
    requires i <= |a| && i <= |b| && LessFrom(a, b, i)
    ensures !LessFrom(b, a, i)
    decreases |a| - i
  {
    if i < |a| && i < |b| && a[i] == b[i] {
      LessAsymmetric(a, b, i + 1);
    }
  }

  lemma {:induction false} LessTotal(a: string, b: string, i: nat)
    requires i <= |a| && i <= |b| && a[..i] == b[..i]
    ensures a == b || LessFrom(a, b, i) || LessFrom(b, a, i)
    decreases |a| - i
  {
    if i == |a| || i == |b| {
      assert a[..|a|] == a && b[..|b|] == b;
    } else if a[i] == b[i] {
      assert a[..i + 1] == a[..i] + [a[i]] && b[..i + 1] == b[..i] + [b[i]];
      LessTotal(a, b, i + 1);
    }
  }

  lemma StringsAreOrdered()
    ensures StrictTotal(StringLess())
  {
    var less := StringLess();
    forall a, b, c ensures Chains(less, a, b, c) {
      if LessFrom(a, b, 0) && LessFrom(b, c, 0) {
        LessTrans(a, b, c, 0);
      }
    }
    forall a, b ensures Decides(less, a, b) {
      if LessFrom(a, b, 0) {
        LessAsymmetric(a, b, 0);
      }
      LessTotal(a, b, 0);
    }
  }

  lemma {:induction false} LessFromIs(a: string, b: string, i: nat, k: nat)
    requires i <= k <= |a| && k <= |b| && a[..i] == b[..i]
    requires a[..k] == b[..k] && (k == |a| < |b| || (k < |a| && k < |b| && a[k] < b[k]))
    ensures LessFrom(a, b, i)
    decreases k - i
  {
    if i < k {
      assert a[i] == a[..k][i] == b[..k][i] == b[i];
      assert a[..i + 1] == a[..k][..i + 1] && b[..i + 1] == b[..k][..i + 1];
      LessFromIs(a, b, i + 1, k);
    }
  }

  lemma {:induction false} WhereLess(a: string, b: string, i: nat) returns (k: nat)
    requires i <= |a| && i <= |b| && a[..i] == b[..i] && LessFrom(a, b, i)
    ensures i <= k <= |a| && k <= |b| && a[..k] == b[..k] && (k == |a| < |b| || (k < |a| && k < |b| && a[k] < b[k]))
    decreases |a| - i
  {
    if i == |a| || a[i] < b[i] {
      k := i;
    } else {
      assert a[..i + 1] == a[..i] + [a[i]] && b[..i + 1] == b[..i] + [b[i]];
      k := WhereLess(a, b, i + 1);
    }
  }

  /** Strings are ordered by the first character in which they differ, a proper prefix first. */
  lemma StringLessIff(a: string, b: string)
    ensures StringLess()(a, b) <==>
      a < b || exists k :: 0 <= k < |a| && k < |b| && a[..k] == b[..k] && a[k] < b[k]
  {
    if StringLess()(a, b) {
      var k := WhereLess(a, b, 0);
      if k == |a| {
        assert b[..|a|] == a;
      } else {
        assert a[..k] == b[..k] && a[k] < b[k];
      }
    }
    if a < b {
      assert a[..|a|] == a && b[..|a|] == a;
      LessFromIs(a, b, 0, |a|);
    }
    if k :| 0 <= k < |a| && k < |b| && a[..k] == b[..k] && a[k] < b[k] {
      LessFromIs(a, b, 0, k);
    }
  }
}
