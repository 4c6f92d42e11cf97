/** What an artifact without findings guarantees: an executable, gated and atomic plan. */
module Accepted {
  import opened Findings
  import opened Artifact
  import opened Checks
  import opened Issues
  import opened Ownership
  import opened Dependencies
  import opened Validator

  ghost predicate IsClean(root: Row)
    requires !RootRaises(root)
  {
    (forall m :: !Defect(root, m)) && !HasCycle(IssueGraph(root))
  }

  /** A clean artifact whose issues can be ordered. */
  ghost predicate IsAccepted(root: Row)
    requires !RootRaises(root)
  {
    IsClean(root) && HasOrder(IssueGraph(root))
  }

  /** No findings are returned exactly for an accepted artifact. */
  lemma NoFindingsIffAccepted(root: Row, items: seq<Finding>)
    requires !RootRaises(root) && Reports(root, items)
    ensures items == [] <==> IsAccepted(root)
  {
    if items == [] {
      forall m: Message ensures !Defect(root, m) {
        DefectNoCycle(root, m);
        assert !Lists(items, m);
      }
      forall path ensures !Lists(items, Cycle(path)) {
      }
    } else {
      ListedIsDefect(root, items, items[0]);
    }
  }

  lemma ListedIsDefect(root: Row, items: seq<Finding>, f: Finding)
    requires !RootRaises(root) && Reports(root, items) && f in items
    ensures Defect(root, f.message) || HasCycle(IssueGraph(root))
  {
    assert f == Finding(RuleOf(f.message), f.message);
    assert Lists(items, f.message);
    if f.message.Cycle? {
      assert Lists(items, Cycle(f.message.path));
    }
  }

  // ----- tables and fields -----

  ghost predicate Unique(table: seq<Entry>) {
    forall i, j :: 0 <= i < j < |table| ==> table[i].key != table[j].key
  }

  lemma {:induction false} FindMisses(table: seq<Entry>, key: string, n: nat, i: nat)
    requires i < n <= |table| && Find(table, key, n) == |table|
    ensures table[i].key != key
  {
    if i < n - 1 {
      FindMisses(table, key, n - 1, i);
    }
  }

  lemma {:induction false} IndexedUnique(rows: seq<Row>, field: string, n: nat)
    requires n <= |rows|
    ensures Unique(Indexed(rows, field, n))
  {
    if n > 0 {
      IndexedUnique(rows, field, n - 1);
      var before, v := Indexed(rows, field, n - 1), Field(rows[n - 1], field);
      if IsText(v) && !Known(before, v.text) {
        forall i | 0 <= i < |before| ensures before[i].key != v.text {
          FindMisses(before, v.text, |before|, i);
        }
      }
    }
  }

  /** Every entry of a table is found under its key. */
  lemma EntryFound(root: Row, name: string, field: string, i: nat)
    requires i < |TableOf(root, name, field)|
    ensures Find(TableOf(root, name, field), TableOf(root, name, field)[i].key, |TableOf(root, name, field)|) == i
  {
    var table := TableOf(root, name, field);
    IndexedUnique(RowsOf(root, name), field, |RowsOf(root, name)|);
    var p := Find(table, table[i].key, |table|);
    if p == |table| {
      FindMisses(table, table[i].key, |table|, i);
    }
  }

  lemma {:induction false} LookupAgrees(row: Row, key: string, n: nat)
    requires n <= |row| && Lookup(row, key, JNull, n) != JNull
    ensures Lookup(row, key, JList([]), n) == Lookup(row, key, JNull, n)
  {
    if n > 0 && row[n - 1].key != key {
      LookupAgrees(row, key, n - 1);
    }
  }

  /** For a list of strings the raw membership test is membership in what was read. */
  lemma RawMembership(row: Row, field: string, x: string)
    requires IsTexts(Field(row, field))
    ensures ListField(row, field) == Field(row, field) && Container(ListField(row, field))
    ensures HoldsText(ListField(row, field), x) <==> x in Strings(row, field)
  {
    LookupAgrees(row, field, |row|);
    var items, texts := Field(row, field).items, Strings(row, field);
    if JStr(x) in items {
      var i :| 0 <= i < |items| && items[i] == JStr(x);
      assert texts[i] == x;
    }
    if x in texts {
      var i :| 0 <= i < |texts| && texts[i] == x;
      assert IsText(items[i]) && items[i] == JStr(x);
    }
  }

  // ----- reading single defects off a clean artifact -----

  lemma {:induction false} IssueDefectCounts(t: Tables, n: nat, i: nat, m: Message)
    requires i < n <= |t.issues| && IssueDefect(t, t.issues[i], m)
    ensures IssuesDefect(t, n, m)
  {
    if i < n - 1 {
      IssueDefectCounts(t, n - 1, i, m);
    }
  }

  lemma {:induction false} MisuseCounts(t: Tables, e: Entry, xs: seq<string>, n: nat, i: nat, m: Message)
    requires i < n <= |xs| && PrerequisiteMisuse(t, e, xs[i], m)
    ensures PrerequisiteUse(t, e, xs, n, m)
  {
    if i < n - 1 {
      MisuseCounts(t, e, xs, n - 1, i, m);
    }
  }

  lemma {:induction false} GateDefectCounts(t: Tables, e: Entry, gates: seq<string>, n: nat, i: nat, m: Message)
    requires i < n <= |gates| && GateDefect(t, e, gates[i], m)
    ensures GatesDefect(t, e, gates, n, m)
  {
    if i < n - 1 {
      GateDefectCounts(t, e, gates, n - 1, i, m);
    }
  }

  lemma {:induction false} EntryGatesCount(t: Tables, n: nat, i: nat, m: Message)
    requires i < n <= |t.prerequisites| && EntryGatesDefect(t, t.prerequisites[i], m)
    ensures AnyGatesDefect(t, n, m)
  {
    if i < n - 1 {
      EntryGatesCount(t, n - 1, i, m);
    }
  }

  lemma CleanWork(root: Row, m: Message)
    requires !RootRaises(root) && IsClean(root)
    ensures !WorkDefect(TablesOf(root), SectionsOf(root), m)
  {
    assert !Defect(root, m);
  }

  lemma CleanIssue(root: Row, i: nat, m: Message)
    requires !RootRaises(root) && IsClean(root) && i < |TablesOf(root).issues|
    ensures !IssueDefect(TablesOf(root), TablesOf(root).issues[i], m)
  {
    CleanWork(root, m);
    if IssueDefect(TablesOf(root), TablesOf(root).issues[i], m) {
      IssueDefectCounts(TablesOf(root), |TablesOf(root).issues|, i, m);
    }
  }

  lemma CleanUse(root: Row, i: nat, p: string, m: Message)
    requires !RootRaises(root) && IsClean(root) && i < |TablesOf(root).issues|
    requires p in Strings(TablesOf(root).issues[i].row, "prerequisites")
    ensures !PrerequisiteMisuse(TablesOf(root), TablesOf(root).issues[i], p, m)
  {
    var t := TablesOf(root);
    var e := t.issues[i];
    var xs := Strings(e.row, "prerequisites");
    CleanIssue(root, i, m);
    if PrerequisiteMisuse(t, e, p, m) {
      var k :| 0 <= k < |xs| && xs[k] == p;
      MisuseCounts(t, e, xs, |xs|, k, m);
    }
  }

  lemma CleanGates(root: Row, i: nat, m: Message)
    requires !RootRaises(root) && IsClean(root) && i < |TablesOf(root).prerequisites|
    ensures !EntryGatesDefect(TablesOf(root), TablesOf(root).prerequisites[i], m)
  {
    CleanWork(root, m);
    if EntryGatesDefect(TablesOf(root), TablesOf(root).prerequisites[i], m) {
      EntryGatesCount(TablesOf(root), |TablesOf(root).prerequisites|, i, m);
    }
  }

  lemma CleanGate(root: Row, i: nat, issue: string, m: Message)
    requires !RootRaises(root) && IsClean(root) && i < |TablesOf(root).prerequisites|
    requires issue in Strings(TablesOf(root).prerequisites[i].row, "gates")
    ensures !GateDefect(TablesOf(root), TablesOf(root).prerequisites[i], issue, m)
  {
    var t := TablesOf(root);
    var e := t.prerequisites[i];
    var gates := Strings(e.row, "gates");
    CleanGates(root, i, m);
    if GateDefect(t, e, issue, m) {
      var k :| 0 <= k < |gates| && gates[k] == issue;
      GateDefectCounts(t, e, gates, |gates|, k, m);
    }
  }

  lemma CleanGroup(root: Row, i: nat, m: Message)
    requires !RootRaises(root) && IsClean(root) && i < |TablesOf(root).groups|
    ensures !GroupDefect(TablesOf(root), TablesOf(root).groups[i], m)
  {
    CleanWork(root, m);
    assert !AnyGroupDefect(TablesOf(root), |TablesOf(root).groups|, m);
  }

  // ----- an order of execution -----

  lemma {:induction false} GraphAt(issues: seq<Entry>, n: nat, i: nat)
    requires i < n <= |issues| && Unique(issues)
    ensures issues[i].key in GraphOf(issues, n)
    ensures GraphOf(issues, n)[issues[i].key] == Strings(issues[i].row, "depends_on")
  {
    if i < n - 1 {
      GraphAt(issues, n - 1, i);
      assert issues[i].key != issues[n - 1].key;
    }
  }

  /** Everything an issue depends on stands before it. */
  ghost predicate DependenciesFirst(issues: seq<Entry>, order: seq<string>) {
    forall i, d :: 0 <= i < |issues| && d in Strings(issues[i].row, "depends_on") ==>
      0 < Rank(order, d, |order|) < Rank(order, issues[i].key, |order|)
  }

  lemma NotUnknown(t: Tables, e: Entry, d: string)
    requires !IssueDefect(t, e, UnknownDependency(e.key, d)) && d in Strings(e.row, "depends_on")
    ensures Known(t.issues, d)
  {
  }

  lemma KnownDependency(root: Row, issues: seq<Entry>, i: nat, d: string)
    requires !RootRaises(root) && IsClean(root) && issues == TablesOf(root).issues
    requires i < |issues| && d in Strings(issues[i].row, "depends_on")
    ensures Known(issues, d)
  {
    CleanIssue(root, i, UnknownDependency(issues[i].key, d));
    NotUnknown(TablesOf(root), issues[i], d);
  }

  lemma EdgeOfDependency(issues: seq<Entry>, i: nat, d: string)
    requires Unique(issues) && i < |issues| && d in Strings(issues[i].row, "depends_on") && Known(issues, d)
    ensures Edge(GraphOf(issues, |issues|), issues[i].key, d)
  {
    GraphAt(issues, |issues|, i);
    GraphAt(issues, |issues|, Find(issues, d, |issues|));
  }

  lemma OrderedDependency(g: Graph, order: seq<string>, a: string, b: string)
    requires IsOrder(g, order, |order|) && Covers(g, order) && Edge(g, a, b)
    ensures 0 < Rank(order, b, |order|) < Rank(order, a, |order|)
  {
    EdgeFalls(g, order, |order|, a, b);
  }

  /** The issues have an order that holds every issue once and in which every dependency comes
      first, none missing. */
  lemma AcceptedIsExecutable(root: Row)
    requires !RootRaises(root) && IsAccepted(root)
    ensures exists order :: IsOrder(IssueGraph(root), order, |order|) && Covers(IssueGraph(root), order)
                            && DependenciesFirst(TablesOf(root).issues, order)
  {
    var issues, g := TablesOf(root).issues, IssueGraph(root);
    IndexedUnique(RowsOf(root, "issues"), "key", |RowsOf(root, "issues")|);
    assert HasOrder(g);
    var order :| IsOrder(g, order, |order|) && Covers(g, order);
    forall i, d | 0 <= i < |issues| && d in Strings(issues[i].row, "depends_on")
      ensures 0 < Rank(order, d, |order|) < Rank(order, issues[i].key, |order|)
    {
      KnownDependency(root, issues, i, d);
      EdgeOfDependency(issues, i, d);
      OrderedDependency(g, order, issues[i].key, d);
    }
    assert DependenciesFirst(issues, order);
  }

  // ----- gates -----

  predicate ListedBy(t: Tables, issue: string, p: string) {
    Known(t.issues, issue) && p in Strings(RowAt(t.issues, issue), "prerequisites")
  }

  predicate GatedBy(t: Tables, issue: string, p: string) {
    Known(t.prerequisites, p) && issue in Strings(RowAt(t.prerequisites, p), "gates")
  }

  lemma ListsAreTexts(root: Row, i: nat, field: string)
    requires !RootRaises(root) && IsClean(root) && i < |TablesOf(root).issues| && ListsIssueField(field)
    ensures IsTexts(Field(TablesOf(root).issues[i].row, field))
  {
    CleanIssue(root, i, NotStrings("issue", TablesOf(root).issues[i].key, field));
  }

  lemma GatesAreTexts(root: Row, i: nat)
    requires !RootRaises(root) && IsClean(root) && i < |TablesOf(root).prerequisites|
    ensures IsTexts(Field(TablesOf(root).prerequisites[i].row, "gates"))
  {
    CleanGates(root, i, NotStrings("prerequisite", TablesOf(root).prerequisites[i].key, "gates"));
  }

  lemma GatePresent(t: Tables, e: Entry, p: string)
    requires !PrerequisiteMisuse(t, e, p, UnknownPrerequisite(e.key, p))
    requires !PrerequisiteMisuse(t, e, p, NotGated(e.key, p))
    ensures Known(t.prerequisites, p)
    ensures Container(Gates(t, p)) ==> HoldsText(Gates(t, p), e.key)
  {
  }

  lemma GatesMembership(root: Row, t: Tables, issue: string, p: string)
    requires !RootRaises(root) && IsClean(root) && t == TablesOf(root) && Known(t.prerequisites, p)
    ensures Container(Gates(t, p))
    ensures HoldsText(Gates(t, p), issue) <==> issue in Strings(RowAt(t.prerequisites, p), "gates")
  {
    var k := Find(t.prerequisites, p, |t.prerequisites|);
    GatesAreTexts(root, k);
    RawMembership(t.prerequisites[k].row, "gates", issue);
  }

  lemma ListedIsGated(root: Row, t: Tables, issue: string, p: string)
    requires !RootRaises(root) && IsClean(root) && t == TablesOf(root) && ListedBy(t, issue, p)
    ensures GatedBy(t, issue, p)
  {
    var i := Find(t.issues, issue, |t.issues|);
    CleanUse(root, i, p, UnknownPrerequisite(issue, p));
    CleanUse(root, i, p, NotGated(issue, p));
    GatePresent(t, t.issues[i], p);
    GatesMembership(root, t, issue, p);
  }

  lemma ReversePresent(t: Tables, e: Entry, issue: string)
    requires !GateDefect(t, e, issue, UnknownGated(e.key, issue)) && !GateDefect(t, e, issue, NoReverse(e.key, issue))
    ensures Known(t.issues, issue)
    ensures Container(Back(t, issue)) ==> HoldsText(Back(t, issue), e.key)
  {
  }

  lemma BackMembership(root: Row, t: Tables, issue: string, p: string)
    requires !RootRaises(root) && IsClean(root) && t == TablesOf(root) && Known(t.issues, issue)
    ensures Container(Back(t, issue))
    ensures HoldsText(Back(t, issue), p) <==> p in Strings(RowAt(t.issues, issue), "prerequisites")
  {
    var i := Find(t.issues, issue, |t.issues|);
    ListsAreTexts(root, i, "prerequisites");
    RawMembership(t.issues[i].row, "prerequisites", p);
  }

  lemma GatedIsListed(root: Row, t: Tables, issue: string, p: string)
    requires !RootRaises(root) && IsClean(root) && t == TablesOf(root) && GatedBy(t, issue, p)
    ensures ListedBy(t, issue, p)
  {
    var k := Find(t.prerequisites, p, |t.prerequisites|);
    CleanGate(root, k, issue, UnknownGated(p, issue));
    CleanGate(root, k, issue, NoReverse(p, issue));
    ReversePresent(t, t.prerequisites[k], issue);
    BackMembership(root, t, issue, p);
  }

  /** "Listed by the issue" and "gated by the prerequisite" are the same relation. */
  lemma AcceptedGatesMatch(root: Row, issue: string, p: string)
    requires !RootRaises(root) && IsClean(root)
    ensures ListedBy(TablesOf(root), issue, p) <==> GatedBy(TablesOf(root), issue, p)
  {
    if ListedBy(TablesOf(root), issue, p) {
      ListedIsGated(root, TablesOf(root), issue, p);
    }
    if GatedBy(TablesOf(root), issue, p) {
      GatedIsListed(root, TablesOf(root), issue, p);
    }
  }

  lemma NotQueued(t: Tables, e: Entry, p: string)
    requires !PrerequisiteMisuse(t, e, p, Queued(e.key, p)) && Known(t.prerequisites, p)
    requires Field(RowAt(t.prerequisites, p), "status") != JStr("verified")
    ensures IsBlocked(Strings(e.row, "labels"))
  {
  }

  lemma KeptOut(root: Row, t: Tables, issue: string, p: string)
    requires !RootRaises(root) && IsClean(root) && t == TablesOf(root) && ListedBy(t, issue, p)
    requires Known(t.prerequisites, p) && Field(RowAt(t.prerequisites, p), "status") != JStr("verified")
    ensures IsBlocked(Strings(RowAt(t.issues, issue), "labels"))
  {
    var i := Find(t.issues, issue, |t.issues|);
    CleanUse(root, i, p, Queued(issue, p));
    NotQueued(t, t.issues[i], p);
  }

  /** No issue gated by a prerequisite that is not verified is queued for implementation. */
  lemma AcceptedIsGated(root: Row, issue: string, p: string)
    requires !RootRaises(root) && IsClean(root) && GatedBy(TablesOf(root), issue, p)
    requires Field(RowAt(TablesOf(root).prerequisites, p), "status") != JStr("verified")
    ensures Known(TablesOf(root).issues, issue)
    ensures IsBlocked(Strings(RowAt(TablesOf(root).issues, issue), "labels"))
  {
    var t := TablesOf(root);
    GatedIsListed(root, t, issue, p);
    KeptOut(root, t, issue, p);
  }

  // ----- threats -----

  predicate IsTested(t: Tables, test: string) {
    Known(t.tests, test) && Claimants(t, "negative_tests", test) != {}
  }

  /** The control answers the threat, is owned by an issue, and names a negative test; all
      the tests it names exist and are owned by issues. */
  ghost predicate Answers(t: Tables, e: Entry, threat: string) {
    && Controls(e, threat)
    && Claimants(t, "controls", e.key) != {}
    && Strings(e.row, "verification") != []
    && forall test :: test in Strings(e.row, "verification") ==> IsTested(t, test)
  }

  lemma CleanControl(root: Row, t: Tables, i: nat, m: Message)
    requires !RootRaises(root) && IsClean(root) && t == TablesOf(root) && i < |t.controls|
    ensures !ControlDefect(t, t.controls[i], m)
  {
    assert !Defect(root, m);
  }

  lemma CleanOwnership(root: Row, t: Tables, m: Message)
    requires !RootRaises(root) && IsClean(root) && t == TablesOf(root)
    ensures !OwnershipDefect(t, SectionsOf(root), m)
  {
    CleanWork(root, m);
  }

  lemma OwnedControl(t: Tables, sections: seq<string>, key: string)
    requires Known(t.controls, key) && !OwnershipDefect(t, sections, UnownedControl(key))
    ensures Claimants(t, "controls", key) != {}
  {
  }

  lemma OwnedTest(t: Tables, sections: seq<string>, e: Entry, test: string)
    requires test in Strings(e.row, "verification") && !ControlDefect(t, e, UnknownTest(e.key, test))
    requires !OwnershipDefect(t, sections, UnownedTest(test))
    ensures IsTested(t, test)
  {
  }

  lemma ControlIsOwned(root: Row, t: Tables, i: nat)
    requires !RootRaises(root) && IsClean(root) && t == TablesOf(root) && i < |t.controls|
    ensures Claimants(t, "controls", t.controls[i].key) != {}
  {
    EntryFound(root, "controls", "id", i);
    CleanOwnership(root, t, UnownedControl(t.controls[i].key));
    OwnedControl(t, SectionsOf(root), t.controls[i].key);
  }

  lemma TestIsOwned(root: Row, t: Tables, i: nat, test: string)
    requires !RootRaises(root) && IsClean(root) && t == TablesOf(root) && i < |t.controls|
    requires test in Strings(t.controls[i].row, "verification")
    ensures IsTested(t, test)
  {
    CleanControl(root, t, i, UnknownTest(t.controls[i].key, test));
    CleanOwnership(root, t, UnownedTest(test));
    OwnedTest(t, SectionsOf(root), t.controls[i], test);
  }

  lemma ThreatIsControlled(root: Row, t: Tables, threat: string)
    requires !RootRaises(root) && IsClean(root) && t == TablesOf(root) && Known(t.threats, threat)
    ensures Controlled(t, threat)
  {
    assert !Defect(root, Uncontrolled(threat));
  }

  /** Every threat reaches a control with a negative test that some issue owns. */
  lemma AcceptedAnswersThreats(root: Row, threat: string)
    requires !RootRaises(root) && IsClean(root) && Known(TablesOf(root).threats, threat)
    ensures exists i :: 0 <= i < |TablesOf(root).controls| && Answers(TablesOf(root), TablesOf(root).controls[i], threat)
  {
    var t := TablesOf(root);
    ThreatIsControlled(root, t, threat);
    var i :| 0 <= i < |t.controls| && Controls(t.controls[i], threat);
    ControlIsOwned(root, t, i);
    CleanControl(root, t, i, NoTest(t.controls[i].key));
    forall test | test in Strings(t.controls[i].row, "verification") ensures IsTested(t, test) {
      TestIsOwned(root, t, i, test);
    }
    assert Answers(t, t.controls[i], threat);
  }

  // ----- atomic groups -----

  lemma {:induction false} ProducersHold(t: Tables, members: seq<string>, n: nat, x: string)
    requires n <= |members| && InFirst(members, n, x)
    ensures Claimants(t, "produces", x) <= Producers(t, members, n)
  {
    if members[n - 1] != x {
      ProducersHold(t, members, n - 1, x);
    }
  }

  lemma SubsetOfOne(a: set<string>, all: set<string>, x: string)
    requires a <= all && |all| <= 1 && x in a
    ensures a == {x} == all
  {
    assert {x} <= all;
    if y :| y in all && y != x {
      assert |{x, y}| == 2;
      CardinalityGrows({x, y}, all);
    }
  }

  lemma {:induction false} CardinalityGrows(a: set<string>, b: set<string>)
    requires a <= b
    ensures |a| <= |b|
  {
    assert b == a + (b - a);
  }

  /** Group `i` is not split: the producers of its members are its declared owners. */
  lemma GroupIsWhole(root: Row, t: Tables, i: nat)
    requires !RootRaises(root) && IsClean(root) && t == TablesOf(root) && i < |t.groups|
    ensures MemberOwners(t, t.groups[i]) == Claimants(t, "atomic_groups", t.groups[i].key)
    ensures |MemberOwners(t, t.groups[i])| <= 1
  {
    var owners, declared := MemberOwners(t, t.groups[i]), Claimants(t, "atomic_groups", t.groups[i].key);
    CleanGroup(root, i, GroupSplit(t.groups[i].key, owners + declared));
  }

  lemma MemberNotUnowned(t: Tables, e: Entry, x: string)
    requires !MemberDefect(t, e, UnownedMember(e.key, x)) && x in Strings(e.row, "members")
    ensures Claimants(t, "produces", x) != {}
  {
  }

  lemma MemberIsOwned(root: Row, t: Tables, i: nat, x: string)
    requires !RootRaises(root) && IsClean(root) && t == TablesOf(root) && i < |t.groups|
    requires x in Strings(t.groups[i].row, "members")
    ensures Claimants(t, "produces", x) != {}
  {
    CleanGroup(root, i, UnownedMember(t.groups[i].key, x));
    MemberNotUnowned(t, t.groups[i], x);
  }

  /** Each non-empty atomic group is declared by exactly one issue, and that issue alone
      produces every member. */
  lemma AcceptedIsAtomic(root: Row, i: nat) returns (owner: string)
    requires !RootRaises(root) && IsClean(root) && i < |TablesOf(root).groups|
    requires Strings(TablesOf(root).groups[i].row, "members") != []
    ensures Claimants(TablesOf(root), "atomic_groups", TablesOf(root).groups[i].key) == {owner}
    ensures forall x :: x in Strings(TablesOf(root).groups[i].row, "members") ==>
              Claimants(TablesOf(root), "produces", x) == {owner}
  {
    var t := TablesOf(root);
    var members := Strings(t.groups[i].row, "members");
    GroupIsWhole(root, t, i);
    MemberIsOwned(root, t, i, members[0]);
    owner :| owner in Claimants(t, "produces", members[0]);
    InFirstAll(members);
    ProducersHold(t, members, |members|, members[0]);
    forall x | x in members ensures Claimants(t, "produces", x) == {owner} {
      SoleProducer(root, t, i, members, x, owner);
    }
    SubsetOfOne(Claimants(t, "produces", members[0]), MemberOwners(t, t.groups[i]), owner);
  }

  lemma SoleProducer(root: Row, t: Tables, i: nat, members: seq<string>, x: string, owner: string)
    requires !RootRaises(root) && IsClean(root) && t == TablesOf(root) && i < |t.groups|
    requires members == Strings(t.groups[i].row, "members") && x in members
    requires owner in MemberOwners(t, t.groups[i]) && |MemberOwners(t, t.groups[i])| <= 1
    ensures Claimants(t, "produces", x) == {owner}
  {
    MemberIsOwned(root, t, i, x);
    InFirstAll(members);
    ProducersHold(t, members, |members|, x);
    var y :| y in Claimants(t, "produces", x);
    SubsetOfOne(Claimants(t, "produces", x), MemberOwners(t, t.groups[i]), y);
  }
}
