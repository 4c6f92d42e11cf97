/** The whole validation, and what an artifact without findings guarantees. */
module Validator {
  import opened Findings
  import opened Artifact
  import opened Checks
  import opened Issues
  import opened Ownership
  import opened Dependencies

  // ----- reading the tables -----

  function TablesOf(root: Row): Tables {
    Tables(TableOf(root, "evidence", "id"), TableOf(root, "blocking_prerequisites", "id"),
           TableOf(root, "controls", "id"), TableOf(root, "threats", "id"), TableOf(root, "negative_tests", "id"),
           TableOf(root, "atomic_groups", "id"), TableOf(root, "issues", "key"))
  }

  ghost predicate TableDefect(root: Row, name: string, field: string, m: Message) {
    RowsDefect(root, name, m) || IndexDefect(RowsOf(root, name), name, field, |RowsOf(root, name)|, m)
  }

  ghost predicate TablesDefect(root: Row, m: Message) {
    || TableDefect(root, "evidence", "id", m)
    || TableDefect(root, "blocking_prerequisites", "id", m)
    || TableDefect(root, "controls", "id", m)
    || TableDefect(root, "threats", "id", m)
    || TableDefect(root, "negative_tests", "id", m)
    || TableDefect(root, "atomic_groups", "id", m)
    || TableDefect(root, "issues", "key", m)
  }

  method ReadTable(root: Row, name: string, field: string, findings: Findings) returns (table: seq<Entry>)
    requires findings.Valid()
    modifies findings
    ensures findings.Valid() && table == TableOf(root, name, field)
    ensures forall m :: m in findings.all <==> m in old(findings.all) || TableDefect(root, name, field, m)
  {
    var rows := MappingRows(root, name, findings);
    table := Index(rows, field, name, findings);
  }

  method ReadTables(root: Row, findings: Findings) returns (t: Tables)
    requires findings.Valid()
    modifies findings
    ensures findings.Valid() && t == TablesOf(root)
    ensures forall m :: m in findings.all <==> m in old(findings.all) || TablesDefect(root, m)
  {
    var evidence := ReadTable(root, "evidence", "id", findings);
    var prerequisites := ReadTable(root, "blocking_prerequisites", "id", findings);
    var controls := ReadTable(root, "controls", "id", findings);
    var threats := ReadTable(root, "threats", "id", findings);
    var tests := ReadTable(root, "negative_tests", "id", findings);
    var groups := ReadTable(root, "atomic_groups", "id", findings);
    var issues := ReadTable(root, "issues", "key", findings);
    t := Tables(evidence, prerequisites, controls, threats, tests, groups, issues);
  }

  // ----- evidence, prerequisites, controls, threats and risks -----

  predicate RecordsRaise(t: Tables) {
    || (exists i :: 0 <= i < |t.evidence| && EvidenceRaises(t.evidence[i]))
    || (exists i :: 0 <= i < |t.prerequisites| && PrerequisiteRaises(t.prerequisites[i]))
    || (exists i :: 0 <= i < |t.controls| && ControlRaises(t.controls[i]))
    || (exists i :: 0 <= i < |t.controls| && ThreatRaises(t.controls[i]))
  }

  ghost predicate RecordsDefect(root: Row, t: Tables, m: Message) {
    || (exists i :: 0 <= i < |t.evidence| && EvidenceDefect(t.evidence[i], m))
    || (exists i :: 0 <= i < |t.prerequisites| && PrerequisiteDefect(t, t.prerequisites[i], m))
    || (exists i :: 0 <= i < |t.controls| && ControlDefect(t, t.controls[i], m))
    || ThreatDefect(t, m)
    || RowsDefect(root, "residual_risks", m)
    || RiskDefect(RowsOf(root, "residual_risks"), |RowsOf(root, "residual_risks")|, m)
  }

  method CheckRecords(root: Row, t: Tables, findings: Findings) returns (raised: bool)
    requires findings.Valid()
    modifies findings
    ensures findings.Valid() && raised == RecordsRaise(t)
    ensures !raised ==> forall m :: m in findings.all <==> m in old(findings.all) || RecordsDefect(root, t, m)
  {
    raised := CheckEvidence(t.evidence, findings);
    if raised { return; }
    raised := CheckPrerequisites(t, findings);
    if raised { return; }
    raised := CheckControls(t, findings);
    if raised { return; }
    raised := CheckThreats(t, findings);
    if raised { return; }
    var risks := MappingRows(root, "residual_risks", findings);
    CheckRisks(risks, findings);
  }

  // ----- issues and what they own -----

  predicate AnyGatesRaise(t: Tables, n: nat)
    requires n <= |t.prerequisites|
  {
    n > 0 && (AnyGatesRaise(t, n - 1) || EntryGatesRaise(t, t.prerequisites[n - 1]))
  }

  predicate EntryGatesRaise(t: Tables, e: Entry) {
    GatesRaise(t, e, Strings(e.row, "gates"), |Strings(e.row, "gates")|)
  }

  ghost predicate EntryGatesDefect(t: Tables, e: Entry, m: Message) {
    GateListDefect(e, m) || GatesDefect(t, e, Strings(e.row, "gates"), |Strings(e.row, "gates")|, m)
  }

  ghost predicate AnyGatesDefect(t: Tables, n: nat, m: Message)
    requires n <= |t.prerequisites|
  {
    n > 0 && (AnyGatesDefect(t, n - 1, m) || EntryGatesDefect(t, t.prerequisites[n - 1], m))
  }

  method CheckAllGates(t: Tables, findings: Findings) returns (raised: bool)
    requires findings.Valid()
    modifies findings
    ensures findings.Valid() && raised == AnyGatesRaise(t, |t.prerequisites|)
    ensures !raised ==>
      forall m :: m in findings.all <==> m in old(findings.all) || AnyGatesDefect(t, |t.prerequisites|, m)
  {
    raised := false;
    for n := 0 to |t.prerequisites|
      invariant findings.Valid() && raised == AnyGatesRaise(t, n)
      invariant !raised ==> forall m :: m in findings.all <==> m in old(findings.all) || AnyGatesDefect(t, n, m)
    {
      if !raised {
        raised := CheckGates(t, t.prerequisites[n], findings);
      }
    }
  }

  ghost predicate AnyGroupDefect(t: Tables, n: nat, m: Message)
    requires n <= |t.groups|
  {
    exists i :: 0 <= i < n && GroupDefect(t, t.groups[i], m)
  }

  method CheckAllGroups(t: Tables, claims: Claims, findings: Findings)
    requires findings.Valid()
    requires Attributes(claims.producedBy, t.issues, "produces", |t.issues|)
    requires Attributes(claims.declaredBy, t.issues, "atomic_groups", |t.issues|)
    modifies findings
    ensures findings.Valid()
    ensures forall m :: m in findings.all <==> m in old(findings.all) || AnyGroupDefect(t, |t.groups|, m)
  {
    for n := 0 to |t.groups|
      invariant findings.Valid()
      invariant forall m :: m in findings.all <==> m in old(findings.all) || AnyGroupDefect(t, n, m)
    {
      CheckGroup(t, t.groups[n], claims, findings);
    }
  }

  predicate WorkRaises(t: Tables) {
    IssuesRaise(t, |t.issues|) || AnyGatesRaise(t, |t.prerequisites|)
  }

  ghost predicate WorkDefect(t: Tables, sections: seq<string>, m: Message) {
    || IssuesDefect(t, |t.issues|, m)
    || OwnershipDefect(t, sections, m)
    || AnyGatesDefect(t, |t.prerequisites|, m)
    || AnyGroupDefect(t, |t.groups|, m)
  }

  method CheckWork(t: Tables, sections: seq<string>, findings: Findings) returns (raised: bool, graph: Graph)
    requires findings.Valid()
    modifies findings
    ensures findings.Valid() && raised == WorkRaises(t)
    ensures !raised ==> graph == GraphOf(t.issues, |t.issues|)
    ensures !raised ==> forall m :: m in findings.all <==> m in old(findings.all) || WorkDefect(t, sections, m)
  {
    var claims;
    raised, claims := CheckIssues(t, findings);
    graph := claims.graph;
    if !raised {
      CheckOwnership(t, sections, claims, findings);
      raised := CheckAllGates(t, findings);
      if !raised {
        CheckAllGroups(t, claims, findings);
      }
    }
  }

  // ----- validate -----

  predicate Raises(root: Row) {
    RootRaises(root) || RecordsRaise(TablesOf(root)) || WorkRaises(TablesOf(root))
  }

  /** What is wrong with an artifact, cycles apart. */
  ghost predicate Defect(root: Row, m: Message)
    requires !RootRaises(root)
  {
    var t := TablesOf(root);
    RootDefect(root, m) || TablesDefect(root, m) || RecordsDefect(root, t, m) || WorkDefect(t, SectionsOf(root), m)
  }

  function IssueGraph(root: Row): Graph {
    var issues := TablesOf(root).issues;
    GraphOf(issues, |issues|)
  }

  ghost predicate HasOrder(g: Graph) {
    exists order :: IsOrder(g, order, |order|) && Covers(g, order)
  }

  datatype Outcome = Returned(items: seq<Finding>) | TypeError

  predicate Lists(items: seq<Finding>, m: Message) {
    Finding(RuleOf(m), m) in items
  }

  /** The findings are exactly the defects, each once under its rule, and closed walks of
      dependencies, of which one is found exactly when the issues cannot be ordered. */
  ghost predicate Reports(root: Row, items: seq<Finding>)
    requires !RootRaises(root)
  {
    && (forall m: Message :: !m.Cycle? ==> (Lists(items, m) <==> Defect(root, m)))
    && (forall path :: Lists(items, Cycle(path)) ==> IsReport(IssueGraph(root), path))
    && ((exists path :: Lists(items, Cycle(path))) <==> HasCycle(IssueGraph(root)))
    && (HasCycle(IssueGraph(root)) <==> !HasOrder(IssueGraph(root)))
    && (forall f :: f in items ==> f.rule == RuleOf(f.message))
    && (forall i, j :: 0 <= i < j < |items| ==> items[i] != items[j])
  }

  function KeysOf(table: seq<Entry>, n: nat): (keys: seq<string>)
    requires n <= |table|
  {
    if n == 0 then [] else KeysOf(table, n - 1) + [table[n - 1].key]
  }

  lemma {:induction false} GraphHasKeys(issues: seq<Entry>, n: nat, x: string)
    requires n <= |issues|
    ensures x in KeysOf(issues, n) <==> x in GraphOf(issues, n)
  {
    if n > 0 {
      GraphHasKeys(issues, n - 1, x);
    }
  }

  lemma RootNoCycle(root: Row, m: Message)
    requires !RootRaises(root)
    ensures RootDefect(root, m) || TablesDefect(root, m) ==> !m.Cycle?
  {
  }

  lemma RecordsNoCycle(root: Row, t: Tables, m: Message)
    ensures RecordsDefect(root, t, m) ==> !m.Cycle?
  {
  }

  lemma {:induction false} IssuesNoCycle(t: Tables, n: nat, m: Message)
    requires n <= |t.issues| && m.Cycle?
    ensures !IssuesDefect(t, n, m)
  {
    if n > 0 {
      IssuesNoCycle(t, n - 1, m);
      UseNoCycle(t, t.issues[n - 1], Strings(t.issues[n - 1].row, "prerequisites"),
                 |Strings(t.issues[n - 1].row, "prerequisites")|, m);
    }
  }

  lemma {:induction false} UseNoCycle(t: Tables, e: Entry, xs: seq<string>, n: nat, m: Message)
    requires n <= |xs| && m.Cycle?
    ensures !PrerequisiteUse(t, e, xs, n, m)
  {
    if n > 0 {
      UseNoCycle(t, e, xs, n - 1, m);
    }
  }

  lemma {:induction false} GatesNoCycle(t: Tables, n: nat, m: Message)
    requires n <= |t.prerequisites| && m.Cycle?
    ensures !AnyGatesDefect(t, n, m)
  {
    if n > 0 {
      GatesNoCycle(t, n - 1, m);
      var gates := Strings(t.prerequisites[n - 1].row, "gates");
      GateNoCycle(t, t.prerequisites[n - 1], gates, |gates|, m);
    }
  }

  lemma {:induction false} GateNoCycle(t: Tables, e: Entry, gates: seq<string>, n: nat, m: Message)
    requires n <= |gates| && m.Cycle?
    ensures !GatesDefect(t, e, gates, n, m)
  {
    if n > 0 {
      GateNoCycle(t, e, gates, n - 1, m);
    }
  }

  lemma GroupsNoCycle(t: Tables, n: nat, m: Message)
    requires n <= |t.groups| && m.Cycle?
    ensures !AnyGroupDefect(t, n, m)
  {
  }

  lemma WorkNoCycle(t: Tables, sections: seq<string>, m: Message)
    ensures WorkDefect(t, sections, m) ==> !m.Cycle?
  {
    if m.Cycle? {
      IssuesNoCycle(t, |t.issues|, m);
      GatesNoCycle(t, |t.prerequisites|, m);
      GroupsNoCycle(t, |t.groups|, m);
    }
  }

  lemma DefectNoCycle(root: Row, m: Message)
    requires !RootRaises(root)
    ensures Defect(root, m) ==> !m.Cycle?
  {
    RootNoCycle(root, m);
    RecordsNoCycle(root, TablesOf(root), m);
    WorkNoCycle(TablesOf(root), SectionsOf(root), m);
  }

  /** `items` are the findings with the messages `all`, each once under its rule. */
  ghost predicate AreFindings(items: seq<Finding>, all: set<Message>) {
    && (forall f :: f in items <==> f.message in all && f.rule == RuleOf(f.message))
    && (forall i, j :: 0 <= i < j < |items| ==> items[i] != items[j])
  }

  lemma ListsAll(items: seq<Finding>, all: set<Message>, m: Message)
    requires AreFindings(items, all)
    ensures Lists(items, m) <==> m in all
  {
  }

  lemma ReportsStay(g: Graph, before: set<Message>, after: set<Message>, m: Message)
    requires OnlyReports(g, before, after)
    ensures !m.Cycle? ==> (m in after <==> m in before)
    ensures m.Cycle? && m in after && m !in before ==> IsReport(g, m.path)
  {
  }

  lemma DefectsStay(root: Row, g: Graph, before: set<Message>, after: set<Message>, m: Message)
    requires !RootRaises(root) && OnlyReports(g, before, after)
    requires forall m :: m in before <==> Defect(root, m)
    ensures !m.Cycle? ==> (m in after <==> Defect(root, m))
    ensures m.Cycle? && m in after ==> IsReport(g, m.path)
  {
    DefectNoCycle(root, m);
    ReportsStay(g, before, after, m);
  }

  lemma CycleFoundIff(g: Graph, before: set<Message>, after: set<Message>)
    requires OnlyReports(g, before, after) && NoCycles(before)
    ensures (exists path :: Cycle(path) in after) <==> before != after
  {
    if before != after {
      var m :| m in after && m !in before;
      assert Cycle(m.path) in after;
    }
  }

  lemma OrderDecides(g: Graph, order: seq<string>)
    requires !HasCycle(g) ==> IsOrder(g, order, |order|) && Covers(g, order)
    ensures HasCycle(g) <==> !HasOrder(g)
  {
    if HasOrder(g) {
      var some :| IsOrder(g, some, |some|) && Covers(g, some);
      OrderedIsAcyclic(g, some);
    }
  }

  lemma Concludes(root: Row, items: seq<Finding>, before: set<Message>, after: set<Message>, g: Graph, order: seq<string>)
    requires !RootRaises(root) && g == IssueGraph(root) && AreFindings(items, after)
    requires forall m :: m in before <==> Defect(root, m)
    requires OnlyReports(g, before, after) && (before == after <==> !HasCycle(g))
    requires !HasCycle(g) ==> IsOrder(g, order, |order|) && Covers(g, order)
    ensures Reports(root, items)
  {
    forall m: Message | !m.Cycle? ensures Lists(items, m) <==> Defect(root, m) {
      DefectsStay(root, g, before, after, m);
      ListsAll(items, after, m);
    }
    forall path ensures Lists(items, Cycle(path)) <==> Cycle(path) in after {
      ListsAll(items, after, Cycle(path));
    }
    forall path | Cycle(path) in after ensures IsReport(g, path) {
      DefectsStay(root, g, before, after, Cycle(path));
    }
    NoneIsCycle(root, before);
    CycleFoundIff(g, before, after);
    OrderDecides(g, order);
    assert (exists path :: Lists(items, Cycle(path))) <==> HasCycle(g);
  }

  lemma NoneIsCycle(root: Row, all: set<Message>)
    requires !RootRaises(root) && forall m :: m in all <==> Defect(root, m)
    ensures NoCycles(all)
  {
    forall m | m in all ensures !m.Cycle? {
      DefectNoCycle(root, m);
    }
  }

  method CheckAll(root: Row, findings: Findings) returns (raised: bool, graph: Graph, keys: seq<string>)
    requires findings.Valid() && findings.all == {}
    modifies findings
    ensures findings.Valid() && raised == Raises(root)
    ensures !raised ==> graph == IssueGraph(root) && forall x :: x in keys <==> x in graph
    ensures !raised ==> forall m :: m in findings.all <==> Defect(root, m)
  {
    graph, keys := map[], [];
    raised := CheckRoot(root, findings);
    if raised { return; }
    var t := ReadTables(root, findings);
    raised := CheckRecords(root, t, findings);
    if raised { return; }
    raised, graph := CheckWork(t, SectionsOf(root), findings);
    keys := KeysOf(t.issues, |t.issues|);
    forall x ensures x in keys <==> x in GraphOf(t.issues, |t.issues|) {
      GraphHasKeys(t.issues, |t.issues|, x);
    }
  }

  lemma FirstTwo<T>(s: seq<T>, x: T)
    requires forall i :: 0 <= i < |s| ==> s[i] == x
    ensures |s| >= 2 ==> s[0] == s[1]
  {
  }

  lemma OneFinding(items: seq<Finding>, m: Message)
    requires AreFindings(items, {m})
    ensures items == [Finding(RuleOf(m), m)]
  {
    var only := Finding(RuleOf(m), m);
    assert only in items;
    forall i | 0 <= i < |items| ensures items[i] == only {
      assert items[i] in items;
      assert items[i].message in {m};
    }
    FirstTwo(items, only);
  }

  /** `validate` */
  method Validate(data: Json) returns (outcome: Outcome)
    ensures !data.JMap? ==> outcome == Returned([Finding(ProfileSchemaInvalid, RootNotMapping)])
    ensures data.JMap? ==> (outcome.TypeError? <==> Raises(data.pairs))
    ensures data.JMap? && outcome.Returned? ==> Reports(data.pairs, outcome.items)
  {
    var findings := new Findings();
    if !data.JMap? {
      findings.Add(RootNotMapping);
      OneFinding(findings.items, RootNotMapping);
      return Returned(findings.items);
    }
    var raised, graph, keys := CheckAll(data.pairs, findings);
    if raised {
      return TypeError;
    }
    ghost var before := findings.all;
    NoneIsCycle(data.pairs, before);
    ghost var order := SearchCycles(graph, keys, findings);
    Concludes(data.pairs, findings.items, before, findings.all, graph, order);
    return Returned(findings.items);
  }
}
