/** The depth-first search for dependency cycles. */
module Dependencies {
  import opened Findings

  /** The dependencies of every issue; only those naming an issue are edges. */
  type Graph = map<string, seq<string>>

  predicate Edge(g: Graph, a: string, b: string) {
    a in g && b in g && b in g[a]
  }

  ghost predicate IsWalk(g: Graph, path: seq<string>) {
    forall i, j :: 0 <= i < j < |path| && j == i + 1 ==> Edge(g, path[i], path[j])
  }

  /** A walk of at least one edge back to where it started. */
  ghost predicate IsClosedWalk(g: Graph, path: seq<string>) {
    |path| >= 2 && IsWalk(g, path) && path[0] == path[|path| - 1]
  }

  ghost predicate HasCycle(g: Graph) {
    exists path :: IsClosedWalk(g, path)
  }

  /** What a cycle finding lists: a closed walk, and its start once more. */
  ghost predicate IsReport(g: Graph, path: seq<string>) {
    |path| >= 3 && path[|path| - 1] == path[0] && IsClosedWalk(g, path[..|path| - 1])
  }

  /** One more than the last place of `x` among the first `n`, or zero. */
  function Rank(order: seq<string>, x: string, n: nat): (r: nat)
    requires n <= |order|
    ensures r <= n
  {
    if n == 0 then 0 else if order[n - 1] == x then n else Rank(order, x, n - 1)
  }

  ghost predicate DependsOnFirst(g: Graph, order: seq<string>, n: nat, x: string)
    requires n <= |order|
  {
    forall d :: Edge(g, x, d) ==> Rank(order, d, n) > 0
  }

  /** No issue repeats, and what it depends on stands before it. */
  ghost predicate IsOrder(g: Graph, order: seq<string>, n: nat)
    requires n <= |order|
  {
    n == 0 || (IsOrder(g, order, n - 1)
               && Rank(order, order[n - 1], n - 1) == 0
               && DependsOnFirst(g, order, n - 1, order[n - 1]))
  }

  lemma {:induction false} RankPrefix(order: seq<string>, y: string, x: string, n: nat)
    requires n <= |order|
    ensures Rank(order + [y], x, n) == Rank(order, x, n)
  {
    if n > 0 {
      RankPrefix(order, y, x, n - 1);
    }
  }

  lemma {:induction false} OrderPrefix(g: Graph, order: seq<string>, y: string, n: nat)
    requires n <= |order| && IsOrder(g, order, n)
    ensures IsOrder(g, order + [y], n)
  {
    if n > 0 {
      OrderPrefix(g, order, y, n - 1);
      RankPrefix(order, y, order[n - 1], n - 1);
      DependsPrefix(g, order, y, n - 1, order[n - 1]);
    }
  }

  lemma DependsPrefix(g: Graph, order: seq<string>, y: string, n: nat, x: string)
    requires n <= |order| && DependsOnFirst(g, order, n, x)
    ensures DependsOnFirst(g, order + [y], n, x)
  {
    forall d | Edge(g, x, d) ensures Rank(order + [y], d, n) > 0 {
      RankPrefix(order, y, d, n);
    }
  }

  lemma OrderGrows(g: Graph, order: seq<string>, x: string)
    requires IsOrder(g, order, |order|) && Rank(order, x, |order|) == 0
    requires DependsOnFirst(g, order, |order|, x)
    ensures IsOrder(g, order + [x], |order| + 1)
  {
    OrderPrefix(g, order, x, |order|);
    RankPrefix(order, x, x, |order|);
    DependsPrefix(g, order, x, |order|, x);
    assert (order + [x])[|order|] == x;
  }

  // ----- an order excludes cycles -----

  lemma {:induction false} EdgeFalls(g: Graph, order: seq<string>, n: nat, a: string, b: string)
    requires n <= |order| && IsOrder(g, order, n) && Edge(g, a, b) && Rank(order, a, n) > 0
    ensures 0 < Rank(order, b, n) < Rank(order, a, n)
  {
    if order[n - 1] == a {
      assert Rank(order, b, n - 1) > 0;
    } else {
      EdgeFalls(g, order, n - 1, a, b);
    }
  }

  lemma {:induction false} WalkFalls(g: Graph, order: seq<string>, path: seq<string>, i: nat)
    requires IsOrder(g, order, |order|) && IsWalk(g, path) && i < |path|
    requires Rank(order, path[0], |order|) > 0
    ensures 0 < Rank(order, path[i], |order|)
    ensures i > 0 ==> Rank(order, path[i], |order|) < Rank(order, path[0], |order|)
  {
    if i > 0 {
      WalkFalls(g, order, path, i - 1);
      EdgeFalls(g, order, |order|, path[i - 1], path[i]);
    }
  }

  ghost predicate Covers(g: Graph, order: seq<string>) {
    forall x :: x in g ==> Rank(order, x, |order|) > 0
  }

  /** An order of all issues with dependencies first leaves no room for a cycle. */
  lemma OrderedIsAcyclic(g: Graph, order: seq<string>)
    requires IsOrder(g, order, |order|) && Covers(g, order)
    ensures !HasCycle(g)
  {
    forall path ensures !IsClosedWalk(g, path) {
      if IsClosedWalk(g, path) {
        assert Edge(g, path[0], path[1]);
        WalkFalls(g, order, path, |path| - 1);
      }
    }
  }

  // ----- the search -----

  function FirstPlace(path: seq<string>, x: string, i: nat): (k: nat)
    requires i <= |path|
    ensures i <= k <= |path| && (k < |path| ==> path[k] == x)
    decreases |path| - i
  {
    if i == |path| || path[i] == x then i else FirstPlace(path, x, i + 1)
  }

  lemma {:induction false} FirstPlaceFinds(path: seq<string>, x: string, i: nat, j: nat)
    requires i <= j < |path| && path[j] == x
    ensures FirstPlace(path, x, i) <= j
    decreases j - i
  {
    if path[i] != x {
      FirstPlaceFinds(path, x, i + 1, j);
    }
  }

  /** `path[path.index(key):]` is a closed walk whenever the last entry was met before. */
  lemma CutIsClosedWalk(g: Graph, path: seq<string>, start: nat)
    requires IsWalk(g, path) && path != [] && start == FirstPlace(path, path[|path| - 1], 0)
    requires start < |path| - 1
    ensures IsClosedWalk(g, path[start..])
  {
    var cut := path[start..];
    forall i, j | 0 <= i < j < |cut| && j == i + 1 ensures Edge(g, cut[i], cut[j]) {
      assert cut[i] == path[start + i] && cut[j] == path[start + j];
    }
  }

  lemma ReportOf(g: Graph, walk: seq<string>, key: string)
    requires IsClosedWalk(g, walk) && walk[0] == key
    ensures IsReport(g, walk + [key])
  {
    assert (walk + [key])[..|walk|] == walk;
  }

  lemma WalkGrows(g: Graph, path: seq<string>, d: string)
    requires IsWalk(g, path) && path != [] && Edge(g, path[|path| - 1], d)
    ensures IsWalk(g, path + [d])
  {
  }

  ghost predicate OnlyReports(g: Graph, before: set<Message>, after: set<Message>) {
    before <= after && forall m :: m in after && m !in before ==> m.Cycle? && IsReport(g, m.path)
  }

  lemma ReportsCompose(g: Graph, a: set<Message>, b: set<Message>, c: set<Message>)
    requires OnlyReports(g, a, b) && OnlyReports(g, b, c)
    ensures OnlyReports(g, a, c)
  {
  }

  ghost predicate NoCycles(all: set<Message>) {
    forall m :: m in all ==> !m.Cycle?
  }

  /** `path` is a walk to `key` through the issues being visited. */
  ghost predicate Leads(g: Graph, visiting: set<string>, key: string, path: seq<string>) {
    && path != [] && path[|path| - 1] == key && key in g
    && IsWalk(g, path)
    && (forall x :: x in visiting <==> Rank(path, x, |path| - 1) > 0)
  }

  lemma Deeper(g: Graph, visiting: set<string>, key: string, path: seq<string>, d: string)
    requires Leads(g, visiting, key, path) && Edge(g, key, d)
    ensures Leads(g, visiting + {key}, d, path + [d])
  {
    WalkGrows(g, path, d);
    forall x ensures x in visiting + {key} <==> Rank(path + [d], x, |path|) > 0 {
      RankPrefix(path, d, x, |path|);
    }
  }

  lemma DependenciesDone(g: Graph, visited: set<string>, finished: seq<string>, key: string)
    requires key in g
    requires forall x :: x in visited ==> Rank(finished, x, |finished|) > 0
    requires forall i :: 0 <= i < |g[key]| && g[key][i] in g ==> g[key][i] in visited
    ensures DependsOnFirst(g, finished, |finished|, key)
  {
    forall d | Edge(g, key, d) ensures Rank(finished, d, |finished|) > 0 {
      var i :| 0 <= i < |g[key]| && g[key][i] == d;
    }
  }

  /** The first `n` dependencies that are issues have been visited. */
  ghost predicate DoneTo(g: Graph, visited: set<string>, dependencies: seq<string>, n: nat)
    requires n <= |dependencies|
  {
    forall i :: 0 <= i < n && dependencies[i] in g ==> dependencies[i] in visited
  }

  lemma DoneGrows(g: Graph, before: set<string>, after: set<string>, dependencies: seq<string>, n: nat)
    requires n < |dependencies| && before <= after
    ensures DoneTo(g, before, dependencies, n) && dependencies[n] in after ==> DoneTo(g, after, dependencies, n + 1)
  {
  }

  /** An issue that is being visited is no longer among those still to visit. */
  lemma LessToVisit(keys: set<string>, open: set<string>, before: set<string>, visited: set<string>, key: string)
    requires key in keys && key !in open && key !in before && before <= visited
    ensures keys - (open + {key}) - visited < keys - open - before
  {
    assert key in keys - open - before && key !in keys - (open + {key}) - visited;
  }

  class Search {
    const graph: Graph
    const findings: Findings
    ghost const start: set<Message>
    var visiting: set<string>
    var visited: set<string>
    ghost var finished: seq<string>

    constructor (graph: Graph, findings: Findings)
      requires findings.Valid() && NoCycles(findings.all)
      ensures this.graph == graph && this.findings == findings && start == findings.all
      ensures visiting == {} && visited == {} && Valid()
    {
      this.graph, this.findings, start := graph, findings, findings.all;
      visiting, visited, finished := {}, {}, [];
    }

    /** Visited issues are the finished ones; they are ordered while no cycle was reported. */
    ghost predicate Valid()
      reads this, findings
    {
      && findings.Valid()
      && (forall x :: x in visited <==> Rank(finished, x, |finished|) > 0)
      && visiting !! visited
      && NoCycles(start)
      && OnlyReports(graph, start, findings.all)
      && (findings.all == start ==> IsOrder(graph, finished, |finished|))
    }

    method Report(key: string, path: seq<string>)
      requires Valid() && Leads(graph, visiting, key, path) && key in visiting
      modifies findings
      ensures Valid() && OnlyReports(graph, old(findings.all), findings.all) && findings.all != start
    {
      var cycleStart := FirstPlace(path, key, 0);
      RankIsPlace(path, key, |path| - 1);
      FirstPlaceFinds(path, key, 0, Rank(path, key, |path| - 1) - 1);
      CutIsClosedWalk(graph, path, cycleStart);
      var cycle := path[cycleStart..] + [key];
      ReportOf(graph, path[cycleStart..], key);
      ghost var before := findings.all;
      findings.Add(Cycle(cycle));
      ReportsCompose(graph, start, before, findings.all);
    }

    method Finish(key: string)
      requires Valid() && key in visiting && key in graph
      requires findings.all == start ==> DoneTo(graph, visited, graph[key], |graph[key]|)
      modifies this
      ensures Valid() && visiting == old(visiting) - {key} && visited == old(visited) + {key}
    {
      ghost var done := finished;
      if findings.all == start {
        DependenciesDone(graph, visited, done, key);
        OrderGrows(graph, done, key);
      }
      visiting := visiting - {key};
      visited := visited + {key};
      finished := finished + [key];
      forall x ensures x in visited <==> Rank(finished, x, |finished|) > 0 {
        RankPrefix(done, key, x, |done|);
      }
    }

    method Visit(key: string, path: seq<string>)
      requires Valid() && Leads(graph, visiting, key, path)
      modifies this, findings
      ensures Valid() && visiting == old(visiting) && old(visited) <= visited
      ensures OnlyReports(graph, old(findings.all), findings.all)
      ensures findings.all == start ==> key in visited
      decreases graph.Keys - visiting - visited
    {
      if key in visiting {
        Report(key, path);
        return;
      }
      if key in visited {
        return;
      }
      ghost var open, before := visiting, findings.all;
      visiting := visiting + {key};
      var dependencies := graph[key];
      for i := 0 to |dependencies|
        invariant Valid() && visiting == open + {key} && old(visited) <= visited && key !in visited
        invariant OnlyReports(graph, before, findings.all)
        invariant findings.all == start ==> DoneTo(graph, visited, dependencies, i)
      {
        var dependency := dependencies[i];
        if dependency in graph {
          Deeper(graph, open, key, path, dependency);
          LessToVisit(graph.Keys, open, old(visited), visited, key);
          ghost var seen := visited;
          Visit(dependency, path + [dependency]);
          DoneGrows(graph, seen, visited, dependencies, i);
        }
      }
      Finish(key);
    }
  }

  lemma {:induction false} RankIsPlace(order: seq<string>, x: string, n: nat)
    requires n <= |order| && Rank(order, x, n) > 0
    ensures order[Rank(order, x, n) - 1] == x
  {
    if order[n - 1] != x {
      RankIsPlace(order, x, n - 1);
    }
  }

  /** The search over all issues: it reports closed walks only, and it reports one exactly
      when the dependencies have a cycle; otherwise the issues have an order in which every
      dependency comes first. */
  method SearchCycles(g: Graph, keys: seq<string>, findings: Findings) returns (ghost order: seq<string>)
    requires findings.Valid() && NoCycles(findings.all)
    requires forall x :: x in keys <==> x in g
    modifies findings
    ensures findings.Valid() && OnlyReports(g, old(findings.all), findings.all)
    ensures findings.all == old(findings.all) <==> !HasCycle(g)
    ensures !HasCycle(g) ==> IsOrder(g, order, |order|) && Covers(g, order)
  {
    var search := new Search(g, findings);
    for i := 0 to |keys|
      invariant search.Valid() && search.visiting == {} && search.graph == g && search.findings == findings
      invariant fresh(search) && search.start == old(findings.all)
      invariant findings.all == search.start ==> forall j :: 0 <= j < i ==> keys[j] in search.visited
    {
      search.Visit(keys[i], [keys[i]]);
    }
    order := search.finished;
    if findings.all == search.start {
      OrderedIsAcyclic(g, order);
    } else {
      ReportIsCycle(g, search.start, findings.all);
    }
  }

  lemma ReportIsCycle(g: Graph, before: set<Message>, after: set<Message>)
    requires OnlyReports(g, before, after) && before != after
    ensures HasCycle(g)
  {
    var m :| m in after && m !in before;
    assert IsClosedWalk(g, m.path[..|m.path| - 1]);
  }

  /** The listed path itself is a walk only if the repeated issue depends on itself. */
  lemma ReportIsWalkIff(g: Graph, path: seq<string>)
    requires IsReport(g, path)
    ensures IsWalk(g, path) <==> Edge(g, path[0], path[0])
  {
    var walk := path[..|path| - 1];
    assert walk[|walk| - 1] == path[|path| - 2] == path[0];
    if Edge(g, path[0], path[0]) {
      forall i, j | 0 <= i < j < |path| && j == i + 1 ensures Edge(g, path[i], path[j]) {
        if j < |path| - 1 {
          assert walk[i] == path[i] && walk[j] == path[j];
        }
      }
    } else {
      assert !Edge(g, path[|path| - 2], path[|path| - 1]);
    }
  }

  /** Two issues that depend on each other: the report lists the first of them twice at its end. */
  lemma MutualReportIsNoWalk()
    ensures var g, path := map["a" := ["b"], "b" := ["a"]], ["a", "b", "a", "a"];
            IsReport(g, path) && !IsWalk(g, path)
  {
    var g, path := map["a" := ["b"], "b" := ["a"]], ["a", "b", "a", "a"];
    var walk := path[..3];
    assert walk == ["a", "b", "a"] && "a" in g && "b" in g;
    assert "b" in g["a"] && "a" in g["b"];
    assert IsReport(g, path);
    assert "a" !in ["b"];
    ReportIsWalkIff(g, path);
  }
}
