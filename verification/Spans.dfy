/** Runs of consecutive line numbers, and the tilings cut at marked lines. */
module Spans {
  datatype Span = Span(lo: nat, hi: nat)

  /** The first marked index from `i` on, or the end. */
  function NextMark(marks: seq<bool>, i: nat): (k: nat)
    requires i <= |marks|
    ensures i <= k <= |marks|
    decreases |marks| - i
  {
    if i == |marks| || marks[i] then i else NextMark(marks, i + 1)
  }

  lemma {:induction false} NextMarkFacts(marks: seq<bool>, i: nat)
    requires i <= |marks|
    ensures var k := NextMark(marks, i);
            (k < |marks| ==> marks[k]) && forall j :: i <= j < k ==> !marks[j]
    decreases |marks| - i
  {
    if i < |marks| && !marks[i] {
      NextMarkFacts(marks, i + 1);
    }
  }

  lemma {:induction false} NextMarkIs(marks: seq<bool>, i: nat, k: nat)
    requires i <= k <= |marks| && (k < |marks| ==> marks[k])
    requires forall j :: i <= j < k ==> !marks[j]
    ensures NextMark(marks, i) == k
    decreases k - i
  {
    if i < k {
      NextMarkIs(marks, i + 1, k);
    }
  }

  /** The spans of the lines from `lo` on, cut before every later marked line. */
  function CutSpans(marks: seq<bool>, lo: nat): (spans: seq<Span>)
    requires lo <= |marks|
    ensures spans == [] <==> lo == |marks|
    ensures forall k :: 0 <= k < |spans| ==> spans[k].lo < spans[k].hi <= |marks|
    decreases |marks| - lo
  {
    if lo == |marks| then []
    else
      var hi := NextMark(marks, lo + 1);
      [Span(lo, hi)] + CutSpans(marks, hi)
  }

  ghost predicate Tiles(lo: nat, hi: nat, spans: seq<Span>) {
    && (forall k :: 0 <= k < |spans| ==> spans[k].lo < spans[k].hi <= hi)
    && (spans == [] <==> lo == hi)
    && (spans != [] ==> spans[0].lo == lo && spans[|spans| - 1].hi == hi)
    && (forall j, k :: 0 <= j < k < |spans| && k == j + 1 ==> spans[j].hi == spans[k].lo)
  }

  /** Consecutive spans tile the lines from `lo` on, and a later line starts a span
      exactly when it is marked. */
  ghost predicate CutAtMarks(marks: seq<bool>, lo: nat, spans: seq<Span>)
    requires lo <= |marks|
  {
    && Tiles(lo, |marks|, spans)
    && (forall k :: 0 < k < |spans| ==> marks[spans[k].lo])
    && (forall k, i :: 0 <= k < |spans| && spans[k].lo < i < spans[k].hi ==> !marks[i])
  }

  lemma {:induction false} CutSpansTile(marks: seq<bool>, lo: nat)
    requires lo <= |marks|
    ensures CutAtMarks(marks, lo, CutSpans(marks, lo))
    decreases |marks| - lo
  {
    if lo < |marks| {
      var hi := NextMark(marks, lo + 1);
      NextMarkFacts(marks, lo + 1);
      CutSpansTile(marks, hi);
      TilesPrepend(marks, lo, hi, CutSpans(marks, hi), CutSpans(marks, lo));
    }
  }

  lemma TilesPrepend(marks: seq<bool>, lo: nat, hi: nat, rest: seq<Span>, spans: seq<Span>)
    requires lo < hi <= |marks| && CutAtMarks(marks, hi, rest) && (hi < |marks| ==> marks[hi])
    requires forall i :: lo < i < hi ==> !marks[i]
    requires spans == [Span(lo, hi)] + rest
    ensures CutAtMarks(marks, lo, spans)
  {
    assert forall k :: 0 < k < |spans| ==> spans[k] == rest[k - 1];
    SpanPrepends(lo, hi, |marks|, rest, spans);
  }

  lemma SpanPrepends(lo: nat, hi: nat, n: nat, rest: seq<Span>, spans: seq<Span>)
    requires lo < hi <= n && Tiles(hi, n, rest) && spans == [Span(lo, hi)] + rest
    ensures Tiles(lo, n, spans)
  {
    assert forall k :: 0 < k < |spans| ==> spans[k] == rest[k - 1];
  }

  lemma {:induction false} LaterSpan(lo: nat, n: nat, spans: seq<Span>, k: nat)
    requires Tiles(lo, n, spans) && 0 < k < |spans|
    ensures spans[0].hi < spans[k].hi
  {
    assert spans[k - 1].hi == spans[k].lo;
    if k > 1 {
      LaterSpan(lo, n, spans, k - 1);
    }
  }

  lemma RestAt(spans: seq<Span>, first: Span, rest: seq<Span>, k: nat)
    requires spans == [first] + rest && k < |rest|
    ensures rest[k] == spans[k + 1]
  {
  }

  lemma RestTiles(lo: nat, n: nat, spans: seq<Span>, hi: nat, rest: seq<Span>)
    requires lo < n && Tiles(lo, n, spans) && spans == [Span(lo, hi)] + rest
    ensures lo < hi <= n && Tiles(hi, n, rest)
  {
    forall k | 0 <= k < |rest| ensures rest[k].lo < rest[k].hi <= n {
      RestAt(spans, Span(lo, hi), rest, k);
    }
    forall j, k | 0 <= j < k < |rest| && k == j + 1 ensures rest[j].hi == rest[k].lo {
      RestAt(spans, Span(lo, hi), rest, j);
      RestAt(spans, Span(lo, hi), rest, k);
    }
    if rest != [] {
      RestAt(spans, Span(lo, hi), rest, 0);
      RestAt(spans, Span(lo, hi), rest, |rest| - 1);
      LaterSpan(lo, n, spans, |spans| - 1);
    }
  }

  lemma FirstAndRest(spans: seq<Span>)
    requires spans != []
    ensures spans == [Span(spans[0].lo, spans[0].hi)] + spans[1..]
  {
  }

  /** The first span ends at the next mark, and the others cut what follows it. */
  lemma CutRest(marks: seq<bool>, lo: nat, spans: seq<Span>, hi: nat, rest: seq<Span>)
    requires lo < |marks| && CutAtMarks(marks, lo, spans) && spans == [Span(lo, hi)] + rest
    ensures lo < hi <= |marks| && hi == NextMark(marks, lo + 1) && CutAtMarks(marks, hi, rest)
  {
    RestTiles(lo, |marks|, spans, hi, rest);
    assert hi < |marks| ==> spans[1] == rest[0] && spans[1].lo == hi;
    NextMarkIs(marks, lo + 1, hi);
    assert forall k :: 0 <= k < |rest| ==> rest[k] == spans[k + 1];
  }

  lemma {:induction false} CutUnique(marks: seq<bool>, lo: nat, spans: seq<Span>)
    requires lo <= |marks| && CutAtMarks(marks, lo, spans)
    ensures spans == CutSpans(marks, lo)
    decreases |marks| - lo
  {
    if lo < |marks| {
      var hi, rest := spans[0].hi, spans[1..];
      FirstAndRest(spans);
      CutRest(marks, lo, spans, hi, rest);
      CutUnique(marks, hi, rest);
    }
  }

  function Concatenate<T>(items: seq<T>, spans: seq<Span>): seq<T>
    requires forall k :: 0 <= k < |spans| ==> spans[k].lo <= spans[k].hi <= |items|
  {
    if spans == [] then []
    else items[spans[0].lo..spans[0].hi] + Concatenate(items, spans[1..])
  }

  lemma {:induction false} CutConcatenate<T>(items: seq<T>, marks: seq<bool>, lo: nat)
    requires lo <= |items| == |marks|
    ensures Concatenate(items, CutSpans(marks, lo)) == items[lo..]
    decreases |marks| - lo
  {
    if lo < |marks| {
      var hi := NextMark(marks, lo + 1);
      CutConcatenate(items, marks, hi);
      assert items[lo..] == items[lo..hi] + items[hi..];
    }
  }

  lemma SliceSnoc<T>(s: seq<T>, lo: nat, i: nat)
    requires lo <= i < |s|
    ensures s[lo..i] + [s[i]] == s[lo..i + 1]
  {
  }

  lemma SliceSplit<T>(s: seq<T>, lo: nat, i: nat, hi: nat)
    requires lo <= i <= hi <= |s|
    ensures s[lo..hi] == s[lo..i] + s[i..hi]
  {
  }

  lemma SliceOfSlice<T>(s: seq<T>, i: nat, n: nat, j: nat, m: nat)
    requires i + n <= |s| && j + m <= n
    ensures s[i..i + n][j..j + m] == s[i + j..i + j + m]
  {
    var t := s[i..i + n];
    var u, v := t[j..j + m], s[i + j..i + j + m];
    assert |u| == |v|;
    forall k | 0 <= k < |u| ensures u[k] == v[k] {
      assert t[j + k] == s[i + (j + k)];
    }
  }

  lemma AppendFirst<T>(total: seq<T>, before: seq<T>, x: T, rest: seq<T>)
    requires total == before + ([x] + rest)
    ensures total == before + [x] + rest
  {
  }

  lemma Assoc<T>(a: seq<T>, b: seq<T>, c: seq<T>)
    ensures a + b + c == a + (b + c)
  {
  }
}
