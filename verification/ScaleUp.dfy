/** Scaling up each unit on its own sustained deferrals. */
module ScaleUp {
  import opened Basics
  import opened Ordering

  datatype Unit = Unit(name: string, slots: nat, busy: nat, deferred: nat)

  type Sample = seq<Unit>

  datatype Scaling = Scaling(name: string, deferred: nat, sustained: nat)

  datatype Context = Context(busy: nat, slots: nat, samples: nat, target: real)

  datatype Decision = Decision(scaleUps: seq<Scaling>, context: Context)

  function Busy(s: Sample, n: nat): nat
    requires n <= |s|
  {
    if n == 0 then 0 else Busy(s, n - 1) + s[n - 1].busy
  }

  function Slots(s: Sample, n: nat): nat
    requires n <= |s|
  {
    if n == 0 then 0 else Slots(s, n - 1) + s[n - 1].slots
  }

  /** The first observation of `name` from position `i` on. */
  function First(s: Sample, name: string, i: nat): (r: Option<Unit>)
    requires i <= |s|
    ensures r.Some? ==> r.value.name == name && r.value in s
    decreases |s| - i
  {
    if i == |s| then None else if s[i].name == name then Some(s[i]) else First(s, name, i + 1)
  }

  function Seen(s: Sample, name: string): Option<Unit> {
    First(s, name, 0)
  }

  predicate Defers(s: Sample, name: string) {
    Seen(s, name).Some? && Seen(s, name).value.deferred > 0
  }

  /** The unit is present and deferring in every sample of the window. */
  ghost predicate DefersThroughout(window: seq<Sample>, name: string) {
    forall k :: 0 <= k < |window| ==> Defers(window[k], name)
  }

  /** Enough samples, and the unit defers in each of the last `sustained`. */
  ghost predicate Triggers(samples: seq<Sample>, sustained: nat, name: string) {
    var n := AtLeastOne(sustained);
    n <= |samples| && DefersThroughout(samples[|samples| - n..], name)
  }

  // ----- the units of a window, in order of appearance -----

  function NamesIn(before: seq<string>, s: Sample, n: nat): (names: seq<string>)
    requires n <= |s|
  {
    if n == 0 then before
    else
      var names := NamesIn(before, s, n - 1);
      if s[n - 1].name in names then names else names + [s[n - 1].name]
  }

  function Names(window: seq<Sample>, n: nat): (names: seq<string>)
    requires n <= |window|
  {
    if n == 0 then [] else NamesIn(Names(window, n - 1), window[n - 1], |window[n - 1]|)
  }

  method Order(window: seq<Sample>) returns (order: seq<string>)
    ensures order == Names(window, |window|)
  {
    order := [];
    for i := 0 to |window|
      invariant order == Names(window, i)
    {
      for j := 0 to |window[i]|
        invariant order == NamesIn(Names(window, i), window[i], j)
      {
        if window[i][j].name !in order {
          order := order + [window[i][j].name];
        }
      }
    }
  }

  lemma {:induction false} NamesInFacts(before: seq<string>, s: Sample, n: nat, x: string)
    requires n <= |s| && Distinct(before)
    ensures Distinct(NamesIn(before, s, n))
    ensures x in NamesIn(before, s, n) <==> x in before || exists i :: 0 <= i < n && s[i].name == x
  {
    if n > 0 {
      NamesInFacts(before, s, n - 1, x);
    }
  }

  lemma {:induction false} FirstFinds(s: Sample, name: string, i: nat)
    requires i <= |s|
    ensures First(s, name, i).Some? <==> exists j :: i <= j < |s| && s[j].name == name
    decreases |s| - i
  {
    if i < |s| && s[i].name != name {
      FirstFinds(s, name, i + 1);
    }
  }

  lemma {:induction false} NamesFacts(window: seq<Sample>, n: nat, x: string)
    requires n <= |window|
    ensures Distinct(Names(window, n))
    ensures x in Names(window, n) <==> exists k :: 0 <= k < n && Seen(window[k], x).Some?
  {
    if n > 0 {
      NamesFacts(window, n - 1, x);
      NamesInFacts(Names(window, n - 1), window[n - 1], |window[n - 1]|, x);
      FirstFinds(window[n - 1], x, 0);
    }
  }

  // ----- the decision -----

  /** The observations of `name` in the first `n` samples that have one. */
  function Observations(window: seq<Sample>, name: string, n: nat): (r: seq<Unit>)
    requires n <= |window|
    ensures |r| <= n
  {
    if n == 0 then []
    else
      var before := Observations(window, name, n - 1);
      if Seen(window[n - 1], name).Some? then before + [Seen(window[n - 1], name).value] else before
  }

  predicate AllDefer(units: seq<Unit>) {
    forall i :: 0 <= i < |units| ==> units[i].deferred > 0
  }

  predicate IsSustained(window: seq<Sample>, name: string) {
    var seen := Observations(window, name, |window|);
    |seen| == |window| && AllDefer(seen)
  }

  function Latest(window: seq<Sample>, name: string): nat
    requires window != []
  {
    var seen := Observations(window, name, |window|);
    if seen == [] then 0 else seen[|seen| - 1].deferred
  }

  function Filtered(window: seq<Sample>, order: seq<string>, n: nat): (r: seq<Scaling>)
    requires n <= |order| && window != []
  {
    if n == 0 then []
    else if IsSustained(window, order[n - 1]) then
      Filtered(window, order, n - 1) + [Scaling(order[n - 1], Latest(window, order[n - 1]), |window|)]
    else Filtered(window, order, n - 1)
  }

  function ScaleUps(samples: seq<Sample>, sustained: nat): seq<Scaling> {
    var n := AtLeastOne(sustained);
    if |samples| < n then []
    else
      var window := samples[|samples| - n..];
      Filtered(window, Names(window, n), |Names(window, n)|)
  }

  /** `decide_scale_up` */
  method Decide(samples: seq<Sample>, sustained: nat, target: real) returns (d: Decision)
    ensures d.scaleUps == ScaleUps(samples, sustained)
    ensures d.context.samples == |samples| && d.context.target == target
    ensures samples != [] ==> var last := samples[|samples| - 1];
                              d.context.busy == Busy(last, |last|) && d.context.slots == Slots(last, |last|)
    ensures samples == [] ==> d.context.busy == 0 && d.context.slots == 0
  {
    var n := AtLeastOne(sustained);
    var context := Context(0, 0, |samples|, target);
    if samples != [] {
      var last := samples[|samples| - 1];
      context := Context(Busy(last, |last|), Slots(last, |last|), |samples|, target);
    }
    if |samples| < n {
      return Decision([], context);
    }
    var window := samples[|samples| - n..];
    var order := Order(window);
    var scaleUps := [];
    for i := 0 to |order|
      invariant scaleUps == Filtered(window, order, i)
    {
      if IsSustained(window, order[i]) {
        scaleUps := scaleUps + [Scaling(order[i], Latest(window, order[i]), n)];
      }
    }
    return Decision(scaleUps, context);
  }

  lemma {:induction false} ObservationsFacts(window: seq<Sample>, name: string, n: nat)
    requires n <= |window|
    ensures var seen := Observations(window, name, n);
            (|seen| == n && AllDefer(seen)) <==> forall k :: 0 <= k < n ==> Defers(window[k], name)
    ensures |Observations(window, name, n)| == n ==>
              forall k :: 0 <= k < n ==> Seen(window[k], name) == Some(Observations(window, name, n)[k])
  {
    if n > 0 {
      ObservationsFacts(window, name, n - 1);
      var before, seen := Observations(window, name, n - 1), Observations(window, name, n);
      var last := Seen(window[n - 1], name);
      if last.Some? {
        assert AllDefer(seen) <==> AllDefer(before) && last.value.deferred > 0 by {
          assert forall i :: 0 <= i < |before| ==> seen[i] == before[i];
          assert seen[|before|] == last.value;
        }
      } else {
        assert !Defers(window[n - 1], name);
      }
    }
  }

  ghost predicate IsScaling(window: seq<Sample>, order: seq<string>, n: nat, x: Scaling)
    requires n <= |order| && window != []
  {
    && (exists i :: 0 <= i < n && order[i] == x.name)
    && IsSustained(window, x.name)
    && x == Scaling(x.name, Latest(window, x.name), |window|)
  }

  lemma ScalingStep(window: seq<Sample>, order: seq<string>, n: nat, x: Scaling)
    requires 0 < n <= |order| && window != []
    ensures IsScaling(window, order, n, x) <==>
              IsScaling(window, order, n - 1, x)
              || (IsSustained(window, order[n - 1]) && x == Scaling(order[n - 1], Latest(window, order[n - 1]), |window|))
  {
    if exists i :: 0 <= i < n - 1 && order[i] == x.name {
      var i :| 0 <= i < n - 1 && order[i] == x.name;
      assert 0 <= i < n && order[i] == x.name;
    }
    assert order[n - 1] == x.name ==> exists i :: 0 <= i < n && order[i] == x.name;
  }

  lemma {:induction false} InFiltered(window: seq<Sample>, order: seq<string>, n: nat, x: Scaling)
    requires n <= |order| && window != []
    ensures x in Filtered(window, order, n) <==> IsScaling(window, order, n, x)
  {
    if n > 0 {
      InFiltered(window, order, n - 1, x);
      ScalingStep(window, order, n, x);
    }
  }

  /** A unit is scaled up exactly when it is present and deferring in each of the last
      `sustained` samples, with its latest deferred count. */
  lemma ScaledIffTriggers(samples: seq<Sample>, sustained: nat, x: Scaling)
    ensures x in ScaleUps(samples, sustained) <==>
      (Triggers(samples, sustained, x.name) && x.sustained == AtLeastOne(sustained)
       && x.deferred == Seen(samples[|samples| - 1], x.name).value.deferred)
  {
    var n := AtLeastOne(sustained);
    if |samples| >= n {
      var window := samples[|samples| - n..];
      assert window[n - 1] == samples[|samples| - 1];
      InFiltered(window, Names(window, n), |Names(window, n)|, x);
      NamesFacts(window, n, x.name);
      ObservationsFacts(window, x.name, n);
      if Triggers(samples, sustained, x.name) {
        assert Defers(window[n - 1], x.name);
      }
    }
  }

  ghost predicate ListedOnce(r: seq<Scaling>) {
    forall i, j :: 0 <= i < j < |r| ==> r[i].name != r[j].name
  }

  lemma {:induction false} FilteredOnce(window: seq<Sample>, order: seq<string>, n: nat)
    requires n <= |order| && window != [] && Distinct(order)
    ensures ListedOnce(Filtered(window, order, n))
  {
    if n > 0 {
      FilteredOnce(window, order, n - 1);
      var before := Filtered(window, order, n - 1);
      forall i | 0 <= i < |before| ensures before[i].name != order[n - 1] {
        InFiltered(window, order, n - 1, before[i]);
      }
    }
  }

  /** No unit is listed twice. */
  lemma ScaledOnce(samples: seq<Sample>, sustained: nat)
    ensures ListedOnce(ScaleUps(samples, sustained))
  {
    var n := AtLeastOne(sustained);
    if |samples| >= n {
      var window := samples[|samples| - n..];
      NamesFacts(window, n, "");
      FilteredOnce(window, Names(window, n), |Names(window, n)|);
    }
  }

  /** Asking for fewer sustained samples never loses a trigger. */
  lemma TriggersAntitone(samples: seq<Sample>, fewer: nat, more: nat, name: string)
    requires fewer <= more && Triggers(samples, more, name)
    ensures Triggers(samples, fewer, name)
  {
    var m, n := AtLeastOne(fewer), AtLeastOne(more);
    var short, long := samples[|samples| - m..], samples[|samples| - n..];
    forall k | 0 <= k < |short| ensures Defers(short[k], name) {
      assert short[k] == long[n - m + k];
      assert Defers(long[n - m + k], name);
    }
  }

  /** Only the unit's own observations decide. */
  lemma TriggersLocally(samples: seq<Sample>, others: seq<Sample>, sustained: nat, name: string)
    requires |samples| == |others|
    requires forall k :: 0 <= k < |samples| ==> Seen(samples[k], name) == Seen(others[k], name)
    ensures Triggers(samples, sustained, name) <==> Triggers(others, sustained, name)
  {
    var n := AtLeastOne(sustained);
    if n <= |samples| {
      var a, b := samples[|samples| - n..], others[|samples| - n..];
      forall k | 0 <= k < n ensures Defers(a[k], name) <==> Defers(b[k], name) {
        assert a[k] == samples[|samples| - n + k] && b[k] == others[|samples| - n + k];
      }
    }
  }

  // ----- the numbers shown -----

  /** Position `j` holds the first observation of `name`. */
  ghost predicate IsFirstAt(s: Sample, name: string, j: nat) {
    j < |s| && s[j].name == name && forall i :: 0 <= i < j ==> s[i].name != name
  }

  lemma {:induction false} FirstIs(s: Sample, name: string, i: nat, j: nat)
    requires i <= j && IsFirstAt(s, name, j)
    ensures First(s, name, i) == Some(s[j])
    decreases j - i
  {
    if i < j {
      FirstIs(s, name, i + 1, j);
    }
  }

  lemma {:induction false} FirstPlace(s: Sample, name: string, n: nat) returns (j: nat)
    requires n <= |s|
    ensures j == n || (j < n && IsFirstAt(s, name, j))
    ensures j == n ==> forall i :: 0 <= i < n ==> s[i].name != name
  {
    j := 0;
    if n > 0 {
      j := FirstPlace(s, name, n - 1);
      if j == n - 1 && s[j].name != name {
        j := n;
      }
    }
  }

  /** The first observation of `name` has deferred work. */
  ghost predicate FirstDefers(s: Sample, name: string) {
    exists j: nat :: IsFirstAt(s, name, j) && s[j].deferred > 0
  }

  /** It has deferred `d` times. */
  ghost predicate FirstShows(s: Sample, name: string, d: nat) {
    exists j: nat :: IsFirstAt(s, name, j) && s[j].deferred == d
  }

  lemma DefersIff(s: Sample, name: string)
    ensures Defers(s, name) <==> FirstDefers(s, name)
  {
    var j := FirstPlace(s, name, |s|);
    FirstFinds(s, name, 0);
    if j < |s| {
      FirstIs(s, name, 0, j);
    }
    if i: nat :| IsFirstAt(s, name, i) && s[i].deferred > 0 {
      FirstIs(s, name, 0, i);
    }
  }

  /** A unit is scaled up exactly when its first observation in each of the last samples defers, of which there
      are `sustained` but at least one; shown are its deferrals in the last. */
  lemma ScaledIff(samples: seq<Sample>, sustained: nat, n: nat, x: Scaling)
    requires n == if sustained == 0 then 1 else sustained
    ensures x in ScaleUps(samples, sustained) <==>
      && n <= |samples| && x.sustained == n
      && (forall k :: |samples| - n <= k < |samples| ==> FirstDefers(samples[k], x.name))
      && FirstShows(samples[|samples| - 1], x.name, x.deferred)
  {
    ScaledIffTriggers(samples, sustained, x);
    if n <= |samples| {
      forall k | |samples| - n <= k < |samples|
        ensures Defers(samples[k], x.name) <==> FirstDefers(samples[k], x.name)
      {
        DefersIff(samples[k], x.name);
      }
      WindowDefers(samples, n, x.name);
      LatestIff(samples[|samples| - 1], x.name, x.deferred);
    }
  }

  lemma WindowDefers(samples: seq<Sample>, n: nat, name: string)
    requires n <= |samples|
    ensures DefersThroughout(samples[|samples| - n..], name) <==>
              forall k :: |samples| - n <= k < |samples| ==> Defers(samples[k], name)
  {
    var window := samples[|samples| - n..];
    forall k | |samples| - n <= k < |samples| ensures samples[k] == window[k - (|samples| - n)] {
    }
    if DefersThroughout(window, name) {
      forall k | |samples| - n <= k < |samples| ensures Defers(samples[k], name) {
        assert Defers(window[k - (|samples| - n)], name);
      }
    }
  }

  lemma LatestIff(s: Sample, name: string, deferred: nat)
    ensures FirstShows(s, name, deferred) <==> Seen(s, name).Some? && Seen(s, name).value.deferred == deferred
  {
    var j := FirstPlace(s, name, |s|);
    FirstFinds(s, name, 0);
    if j < |s| {
      FirstIs(s, name, 0, j);
    }
    if i: nat :| IsFirstAt(s, name, i) {
      FirstIs(s, name, 0, i);
    }
  }

  /** One more unit adds its busy slots and its slots to those of a sample. */
  lemma OneMoreUnit(s: Sample, u: Unit)
    ensures Busy([], 0) == 0 && Slots([], 0) == 0
    ensures Busy(s + [u], |s| + 1) == Busy(s, |s|) + u.busy
    ensures Slots(s + [u], |s| + 1) == Slots(s, |s|) + u.slots
  {
    SumsOfPrefix(s, u, |s|);
  }

  lemma {:induction false} SumsOfPrefix(s: Sample, u: Unit, n: nat)
    requires n <= |s|
    ensures Busy(s + [u], n) == Busy(s, n) && Slots(s + [u], n) == Slots(s, n)
  {
    if n > 0 {
      SumsOfPrefix(s, u, n - 1);
    }
  }

  // ----- the order of the list -----

  lemma {:induction false} NamesInPrefix(before: seq<string>, s: Sample, n: nat)
    requires n <= |s|
    ensures before <= NamesIn(before, s, n)
  {
    if n > 0 {
      NamesInPrefix(before, s, n - 1);
    }
  }

  lemma {:induction false} NamesPrefix(window: seq<Sample>, n: nat)
    requires 0 < n <= |window|
    ensures NamesIn([], window[0], |window[0]|) <= Names(window, n)
  {
    if n == 1 {
      assert Names(window, 0) == [];
    } else {
      NamesPrefix(window, n - 1);
      NamesInPrefix(Names(window, n - 1), window[n - 1], |window[n - 1]|);
    }
  }

  lemma NewName(s: Sample, m: nat, b: nat)
    requires 0 < m <= |s| && s[m - 1].name !in NamesIn([], s, m - 1) && IsFirstAt(s, s[m - 1].name, b)
    ensures b == m - 1
  {
    NamesInFacts([], s, m - 1, s[m - 1].name);
  }

  lemma OldName(s: Sample, m: nat, name: string, a: nat)
    requires m <= |s| && name in NamesIn([], s, m) && IsFirstAt(s, name, a)
    ensures a < m
  {
    NamesInFacts([], s, m, name);
  }

  lemma {:induction false} NamesByPlace(s: Sample, m: nat, p: nat, q: nat, a: nat, b: nat)
    requires m <= |s| && p < q < |NamesIn([], s, m)|
    requires IsFirstAt(s, NamesIn([], s, m)[p], a) && IsFirstAt(s, NamesIn([], s, m)[q], b)
    ensures a < b
  {
    var before := NamesIn([], s, m - 1);
    if q < |before| {
      NamesByPlace(s, m - 1, p, q, a, b);
    } else {
      NewName(s, m, b);
      OldName(s, m - 1, before[p], a);
    }
  }

  lemma {:induction false} FilteredAt(window: seq<Sample>, order: seq<string>, n: nat, i: nat) returns (p: nat)
    requires n <= |order| && window != [] && i < |Filtered(window, order, n)|
    ensures p < n && order[p] == Filtered(window, order, n)[i].name
  {
    if i < |Filtered(window, order, n - 1)| {
      p := FilteredAt(window, order, n - 1, i);
    } else {
      p := n - 1;
    }
  }

  lemma {:induction false} FilteredInOrder(window: seq<Sample>, order: seq<string>, n: nat, i: nat, j: nat) returns (p: nat, q: nat)
    requires n <= |order| && window != [] && i < j < |Filtered(window, order, n)|
    ensures p < q < n && order[p] == Filtered(window, order, n)[i].name && order[q] == Filtered(window, order, n)[j].name
  {
    if j < |Filtered(window, order, n - 1)| {
      p, q := FilteredInOrder(window, order, n - 1, i, j);
    } else {
      p := FilteredAt(window, order, n - 1, i);
      q := n - 1;
    }
  }

  lemma PlaceInPrefix(prefix: seq<string>, order: seq<string>, p: nat, x: string)
    requires prefix <= order && Distinct(order) && p < |order| && order[p] == x && x in prefix
    ensures p < |prefix| && prefix[p] == x
  {
    var k :| 0 <= k < |prefix| && prefix[k] == x;
    assert order[k] == x;
  }

  lemma InFirstSample(window: seq<Sample>, name: string, a: nat)
    requires window != [] && IsFirstAt(window[0], name, a)
    ensures name in NamesIn([], window[0], |window[0]|)
  {
    NamesInFacts([], window[0], |window[0]|, name);
  }

  /** Scaled-up units are listed in the order in which the first of the samples names them. */
  lemma ListedByPlace(samples: seq<Sample>, sustained: nat, n: nat, ups: seq<Scaling>, i: nat, j: nat, a: nat, b: nat)
    requires n == (if sustained == 0 then 1 else sustained) && n <= |samples|
    requires ups == ScaleUps(samples, sustained) && i < j < |ups|
    requires IsFirstAt(samples[|samples| - n], ups[i].name, a) && IsFirstAt(samples[|samples| - n], ups[j].name, b)
    ensures a < b
  {
    var window := samples[|samples| - n..];
    var order, first := Names(window, n), NamesIn([], window[0], |window[0]|);
    assert window[0] == samples[|samples| - n];
    NamesFacts(window, n, "");
    NamesPrefix(window, n);
    var p, q := FilteredInOrder(window, order, |order|, i, j);
    InFirstSample(window, ups[i].name, a);
    InFirstSample(window, ups[j].name, b);
    PlaceInPrefix(first, order, p, ups[i].name);
    PlaceInPrefix(first, order, q, ups[j].name);
    NamesByPlace(window[0], |window[0]|, p, q, a, b);
  }
}
