/** The watchdog that kills hung agents, a few a sweep. */
module Watchdog {
  import opened Ordering

  /** One agent; elapsed times and the policy's spans are in nanoseconds. */
  datatype Agent = Agent(id: string, inCall: bool, elapsed: nat, present: bool)

  datatype Policy = Policy(limit: nat, grace: nat, margin: nat, killCap: nat)

  datatype Verdict = InTime | Escalated | ChildOutlivedBound | NotVerified

  datatype Sweep = Sweep(checked: nat, healthy: nat, killed: seq<string>, deferred: seq<string>, violations: seq<string>)

  /** `verify_call` */
  function VerifyCall(p: Policy, elapsed: nat, childGone: bool): Verdict {
    if !childGone then NotVerified
    else if elapsed > p.limit + p.grace then ChildOutlivedBound
    else if elapsed > p.limit then Escalated
    else InTime
  }

  predicate IsHung(a: Agent, p: Policy) {
    a.inCall && a.elapsed > p.limit + p.margin && !a.present
  }

  predicate IsViolation(a: Agent, p: Policy) {
    !a.inCall && VerifyCall(p, a.elapsed, true) == ChildOutlivedBound
  }

  function HungIds(agents: seq<Agent>, p: Policy, n: nat): (ids: seq<string>)
    requires n <= |agents|
  {
    if n == 0 then []
    else if IsHung(agents[n - 1], p) then HungIds(agents, p, n - 1) + [agents[n - 1].id]
    else HungIds(agents, p, n - 1)
  }

  function ViolationIds(agents: seq<Agent>, p: Policy, n: nat): (ids: seq<string>)
    requires n <= |agents|
  {
    if n == 0 then []
    else if IsViolation(agents[n - 1], p) then ViolationIds(agents, p, n - 1) + [agents[n - 1].id]
    else ViolationIds(agents, p, n - 1)
  }

  function SaturatingSub(a: nat, b: nat): nat {
    if a < b then 0 else a - b
  }

  function Least(a: nat, b: nat): nat {
    if a < b then a else b
  }

  function Hung(agents: seq<Agent>, p: Policy): seq<string> {
    HungIds(agents, p, |agents|)
  }

  /** `watchdog_sweep` */
  function SweepOf(agents: seq<Agent>, p: Policy): Sweep {
    var hung := Sort(Hung(agents, p), StringLess());
    var violations := ViolationIds(agents, p, |agents|);
    var cut := Least(p.killCap, |hung|);
    Sweep(|agents|, SaturatingSub(SaturatingSub(|agents|, |hung|), |violations|), hung[..cut], hung[cut..], violations)
  }

  lemma {:induction false} HungAndLate(agents: seq<Agent>, p: Policy, n: nat)
    requires n <= |agents|
    ensures |HungIds(agents, p, n)| + |ViolationIds(agents, p, n)| <= n
  {
    if n > 0 {
      HungAndLate(agents, p, n - 1);
    }
  }

  /** Healthy, killed, deferred and late agents make up the population: neither saturating
      subtraction clamps. */
  lemma SweepPartitions(agents: seq<Agent>, p: Policy)
    ensures var s := SweepOf(agents, p);
            && s.healthy + |s.killed| + |s.deferred| + |s.violations| == s.checked == |agents|
            && |Hung(agents, p)| + |s.violations| <= |agents|
  {
    HungAndLate(agents, p, |agents|);
  }

  lemma CutJoins(agents: seq<Agent>, p: Policy, hung: seq<string>)
    requires hung == Sort(Hung(agents, p), StringLess())
    ensures var s := SweepOf(agents, p);
            && s.killed + s.deferred == hung && |s.killed| <= p.killCap
            && (s.deferred != [] ==> |s.killed| == p.killCap)
  {
  }

  /** The killed and then the deferred are the sorted hung agents, and the cap holds; it is
      used up before anyone is deferred. */
  lemma SweepKillsInOrder(agents: seq<Agent>, p: Policy)
    ensures var s := SweepOf(agents, p);
            && Sorted(s.killed + s.deferred, StringLess())
            && multiset(s.killed + s.deferred) == multiset(Hung(agents, p))
            && |s.killed| <= p.killCap
            && (s.deferred != [] ==> |s.killed| == p.killCap)
  {
    var hung := Hung(agents, p);
    StringsAreOrdered();
    SortSorts(hung, StringLess());
    CutJoins(agents, p, Sort(hung, StringLess()));
  }

  // ----- who is swept -----

  /** Some places of the population, in order. */
  ghost predicate ArePlaces(places: seq<nat>, n: nat) {
    && (forall k :: 0 <= k < |places| ==> places[k] < n)
    && (forall j, k :: 0 <= j < k < |places| ==> places[j] < places[k])
  }

  /** `ids` are those of the agents at `places`. */
  ghost predicate AreIds(agents: seq<Agent>, places: seq<nat>, ids: seq<string>)
    requires ArePlaces(places, |agents|)
  {
    && |ids| == |places|
    && forall k :: 0 <= k < |places| ==> ids[k] == agents[places[k]].id
  }

  lemma OneMorePlace(agents: seq<Agent>, before: seq<nat>, ids: seq<string>, n: nat)
    requires 0 < n <= |agents| && ArePlaces(before, n - 1) && AreIds(agents, before, ids)
    ensures ArePlaces(before + [n - 1], n) && AreIds(agents, before + [n - 1], ids + [agents[n - 1].id])
    ensures forall i: nat :: i in before + [n - 1] <==> i in before || i == n - 1
  {
  }

  predicate HangsAt(a: Agent, p: Policy) {
    a.inCall && !a.present && a.elapsed > p.limit + p.margin
  }

  predicate LateAt(a: Agent, p: Policy) {
    !a.inCall && a.elapsed > p.limit + p.grace
  }

  lemma {:induction false} HungPlaces(agents: seq<Agent>, p: Policy, n: nat) returns (places: seq<nat>)
    requires n <= |agents|
    ensures ArePlaces(places, n) && AreIds(agents, places, HungIds(agents, p, n))
    ensures forall i: nat :: i in places <==> i < n && HangsAt(agents[i], p)
  {
    places := [];
    if n > 0 {
      places := HungPlaces(agents, p, n - 1);
      if HangsAt(agents[n - 1], p) {
        OneMorePlace(agents, places, HungIds(agents, p, n - 1), n);
        places := places + [n - 1];
      }
    }
  }

  lemma {:induction false} LatePlaces(agents: seq<Agent>, p: Policy, n: nat) returns (places: seq<nat>)
    requires n <= |agents|
    ensures ArePlaces(places, n) && AreIds(agents, places, ViolationIds(agents, p, n))
    ensures forall i: nat :: i in places <==> i < n && LateAt(agents[i], p)
  {
    places := [];
    if n > 0 {
      places := LatePlaces(agents, p, n - 1);
      if LateAt(agents[n - 1], p) {
        OneMorePlace(agents, places, ViolationIds(agents, p, n - 1), n);
        places := places + [n - 1];
      }
    }
  }

  /** Killed or deferred are the agents still in a call, without an artifact, past limit and margin; reported
      are, in order, those whose call returned past limit and grace; all others are healthy. */
  lemma SweepShows(agents: seq<Agent>, p: Policy, s: Sweep)
    returns (hung: seq<nat>, late: seq<nat>, ids: seq<string>)
    requires s == SweepOf(agents, p)
    ensures forall i: nat :: i in hung <==>
              i < |agents| && agents[i].inCall && !agents[i].present && agents[i].elapsed > p.limit + p.margin
    ensures forall i: nat :: i in late <==>
              i < |agents| && !agents[i].inCall && agents[i].elapsed > p.limit + p.grace
    ensures ArePlaces(hung, |agents|) && AreIds(agents, hung, ids) && multiset(s.killed + s.deferred) == multiset(ids)
    ensures ArePlaces(late, |agents|) && AreIds(agents, late, s.violations)
    ensures s.healthy == |agents| - |hung| - |late|
  {
    ids := Hung(agents, p);
    hung := HungPlaces(agents, p, |agents|);
    late := LatePlaces(agents, p, |agents|);
    HungAndLate(agents, p, |agents|);
    SweepKillsInOrder(agents, p);
    SweepPartitions(agents, p);
  }

  /** A verified call was in time up to the limit, escalated up to limit and grace, and late beyond. */
  lemma VerdictIff(p: Policy, elapsed: nat, childGone: bool)
    ensures VerifyCall(p, elapsed, childGone) == NotVerified <==> !childGone
    ensures VerifyCall(p, elapsed, childGone) == InTime <==> childGone && elapsed <= p.limit
    ensures VerifyCall(p, elapsed, childGone) == Escalated <==> childGone && p.limit < elapsed <= p.limit + p.grace
  {
  }

  // ----- repeated sweeps -----

  /** The agents left once those killed are gone. */
  function Leave(agents: seq<Agent>, gone: seq<string>, n: nat): (left: seq<Agent>)
    requires n <= |agents|
  {
    if n == 0 then []
    else if agents[n - 1].id in gone then Leave(agents, gone, n - 1)
    else Leave(agents, gone, n - 1) + [agents[n - 1]]
  }

  /** `after` hangs exactly where the sweep of `before` deferred: the killed have left and
      nobody else hangs. */
  ghost predicate Follows(before: seq<Agent>, after: seq<Agent>, p: Policy) {
    multiset(Hung(after, p)) == multiset(SweepOf(before, p).deferred)
  }

  lemma HungShrinks(before: seq<Agent>, after: seq<Agent>, p: Policy)
    requires Follows(before, after, p)
    ensures |Hung(after, p)| == SaturatingSub(|Hung(before, p)|, p.killCap)
  {
    assert |multiset(Hung(after, p))| == |Hung(after, p)|;
    assert |multiset(SweepOf(before, p).deferred)| == |SweepOf(before, p).deferred|;
  }

  ghost predicate IsCampaign(runs: seq<seq<Agent>>, p: Policy) {
    forall i, j :: 0 <= i < j < |runs| && j == i + 1 ==> Follows(runs[i], runs[j], p)
  }

  lemma {:induction false} HungAfter(runs: seq<seq<Agent>>, p: Policy, k: nat)
    requires IsCampaign(runs, p) && k < |runs|
    ensures |Hung(runs[k], p)| == SaturatingSub(|Hung(runs[0], p)|, Product(k, p.killCap))
  {
    if k > 0 {
      HungAfter(runs, p, k - 1);
      HungShrinks(runs[k - 1], runs[k], p);
    }
  }

  function Product(k: nat, cap: nat): nat {
    if k == 0 then 0 else Product(k - 1, cap) + cap
  }

  lemma {:induction false} ProductIs(k: nat, cap: nat)
    ensures Product(k, cap) == k * cap
  {
    if k > 0 {
      ProductIs(k - 1, cap);
      assert (k - 1) * cap + cap == k * cap;
    }
  }

  function CeilingOf(h: nat, cap: nat): nat
    requires cap > 0
  {
    (h + cap - 1) / cap
  }

  lemma CeilingFacts(h: nat, cap: nat, k: nat)
    requires cap > 0
    ensures k * cap >= h <==> k >= CeilingOf(h, cap)
  {
    var c := CeilingOf(h, cap);
    assert c * cap <= h + cap - 1 < c * cap + cap;
    if k >= c {
      Grows(c, k, cap);
    } else {
      Grows(k + 1, c, cap);
    }
  }

  lemma Grows(a: nat, b: nat, cap: nat)
    requires a <= b
    ensures a * cap <= b * cap
    ensures (a + 1) * cap == a * cap + cap
  {
    assert b * cap - a * cap == (b - a) * cap;
  }

  /** With a positive cap, after `k` sweeps nobody hangs exactly when `k` has reached
      `ceil(h / cap)`. */
  lemma SweepsNeeded(runs: seq<seq<Agent>>, p: Policy, k: nat)
    requires IsCampaign(runs, p) && p.killCap > 0 && k < |runs|
    ensures Hung(runs[k], p) == [] <==> k >= CeilingOf(|Hung(runs[0], p)|, p.killCap)
  {
    HungAfter(runs, p, k);
    ProductIs(k, p.killCap);
    CeilingFacts(|Hung(runs[0], p)|, p.killCap, k);
  }

  // ----- a population whose killed agents leave -----

  ghost predicate UniqueIds(agents: seq<Agent>) {
    forall i, j :: 0 <= i < j < |agents| ==> agents[i].id != agents[j].id
  }

  function Without(ids: seq<string>, gone: seq<string>, n: nat): (left: seq<string>)
    requires n <= |ids|
  {
    if n == 0 then []
    else if ids[n - 1] in gone then Without(ids, gone, n - 1)
    else Without(ids, gone, n - 1) + [ids[n - 1]]
  }

  lemma {:induction false} HungPrefix(agents: seq<Agent>, a: Agent, p: Policy, n: nat)
    requires n <= |agents|
    ensures HungIds(agents + [a], p, n) == HungIds(agents, p, n)
  {
    if n > 0 {
      HungPrefix(agents, a, p, n - 1);
    }
  }

  lemma {:induction false} WithoutPrefix(ids: seq<string>, x: string, gone: seq<string>, n: nat)
    requires n <= |ids|
    ensures Without(ids + [x], gone, n) == Without(ids, gone, n)
  {
    if n > 0 {
      WithoutPrefix(ids, x, gone, n - 1);
    }
  }

  /** Those hanging after some have left are those hanging before, without the ones gone. */
  lemma {:induction false} HungOfLeft(agents: seq<Agent>, p: Policy, gone: seq<string>, n: nat)
    requires n <= |agents|
    ensures Hung(Leave(agents, gone, n), p) == Without(HungIds(agents, p, n), gone, |HungIds(agents, p, n)|)
  {
    if n > 0 {
      var a, left, ids := agents[n - 1], Leave(agents, gone, n - 1), HungIds(agents, p, n - 1);
      HungOfLeft(agents, p, gone, n - 1);
      HungPrefix(left, a, p, |left|);
      WithoutPrefix(ids, a.id, gone, |ids|);
    }
  }

  lemma {:induction false} InWithout(ids: seq<string>, gone: seq<string>, n: nat, x: string)
    requires n <= |ids|
    ensures x in Without(ids, gone, n) <==> x !in gone && exists i :: 0 <= i < n && ids[i] == x
  {
    if n > 0 {
      InWithout(ids, gone, n - 1, x);
    }
  }

  lemma {:induction false} WithoutDistinct(ids: seq<string>, gone: seq<string>, n: nat)
    requires n <= |ids| && Distinct(ids)
    ensures Distinct(Without(ids, gone, n))
  {
    if n > 0 {
      WithoutDistinct(ids, gone, n - 1);
      InWithout(ids, gone, n - 1, ids[n - 1]);
    }
  }

  lemma {:induction false} HungIdsFrom(agents: seq<Agent>, p: Policy, n: nat, x: string)
    requires n <= |agents| && x in HungIds(agents, p, n)
    ensures exists i :: 0 <= i < n && agents[i].id == x
  {
    if n > 0 && x in HungIds(agents, p, n - 1) {
      HungIdsFrom(agents, p, n - 1, x);
    }
  }

  lemma {:induction false} HungDistinct(agents: seq<Agent>, p: Policy, n: nat)
    requires n <= |agents| && UniqueIds(agents)
    ensures Distinct(HungIds(agents, p, n))
  {
    if n > 0 {
      HungDistinct(agents, p, n - 1);
      if agents[n - 1].id in HungIds(agents, p, n - 1) {
        HungIdsFrom(agents, p, n - 1, agents[n - 1].id);
      }
    }
  }

  lemma InDeferred(killed: seq<string>, deferred: seq<string>, x: string)
    requires Distinct(killed + deferred)
    ensures x in deferred <==> x in killed + deferred && x !in killed
  {
    if x in deferred && x in killed {
      var i :| 0 <= i < |killed| && killed[i] == x;
      var j :| 0 <= j < |deferred| && deferred[j] == x;
      Apart(killed, deferred, i, j);
    }
  }

  lemma Apart(a: seq<string>, b: seq<string>, i: nat, j: nat)
    requires Distinct(a + b) && i < |a| && j < |b|
    ensures a[i] != b[j]
  {
    assert (a + b)[i] == a[i] && (a + b)[|a| + j] == b[j];
  }

  /** Agents with distinct identifiers whose killed leave follow the sweep. */
  lemma DeferredStay(hung: seq<string>, killed: seq<string>, deferred: seq<string>, left: seq<string>)
    requires multiset(killed + deferred) == multiset(hung) && Distinct(killed + deferred)
    requires Distinct(left) && Distinct(deferred) && left == Without(hung, killed, |hung|)
    ensures multiset(left) == multiset(deferred)
  {
    forall x ensures x in left <==> x in deferred {
      InWithout(hung, killed, |hung|, x);
      SameMembers(hung, killed + deferred, x);
      InDeferred(killed, deferred, x);
    }
    SameMultiset(left, deferred);
  }

  lemma LeavingFollows(agents: seq<Agent>, p: Policy)
    requires UniqueIds(agents)
    ensures Follows(agents, Leave(agents, SweepOf(agents, p).killed, |agents|), p)
  {
    var s, hung := SweepOf(agents, p), Hung(agents, p);
    var left := Without(hung, s.killed, |hung|);
    HungOfLeft(agents, p, s.killed, |agents|);
    HungDistinct(agents, p, |agents|);
    WithoutDistinct(hung, s.killed, |hung|);
    SweepKillsInOrder(agents, p);
    StaysDistinct(hung, s.killed + s.deferred);
    SuffixDistinct(s.killed, s.deferred);
    DeferredStay(hung, s.killed, s.deferred, left);
  }

  lemma SuffixDistinct(a: seq<string>, b: seq<string>)
    requires Distinct(a + b)
    ensures Distinct(b)
  {
    forall i, j | 0 <= i < j < |b| ensures b[i] != b[j] {
      assert (a + b)[|a| + i] == b[i] && (a + b)[|a| + j] == b[j];
    }
  }
}
