/** The checks of issues, ownership, gates and atomic groups. */
module Issues {
  import opened Basics
  import opened Findings
  import opened Artifact
  import opened Checks
  import opened Dependencies

  // ----- one issue -----

  predicate ListsIssueField(field: string) {
    field in ["evidence", "produces", "consumes", "prerequisites", "controls",
              "negative_tests", "covers", "depends_on", "labels", "atomic_groups"]
  }

  predicate IsBlocked(labels: seq<string>) {
    "autospec:blocked-prerequisite" in labels && "auto-implement" !in labels
  }

  function Gates(t: Tables, prerequisite: string): Json
    requires Known(t.prerequisites, prerequisite)
  {
    ListField(RowAt(t.prerequisites, prerequisite), "gates")
  }

  /** A prerequisite the issue lists has a `gates` value that `in` refuses. */
  predicate IssueRaises(t: Tables, e: Entry) {
    exists p :: p in Strings(e.row, "prerequisites") && GateRefuses(t, p)
  }

  predicate GateRefuses(t: Tables, p: string) {
    Known(t.prerequisites, p) && !Container(Gates(t, p))
  }

  /** `p` is not verified, and the issue is not kept out of the queue. */
  predicate QueuesTooEarly(t: Tables, e: Entry, p: string)
    requires Known(t.prerequisites, p)
  {
    Field(RowAt(t.prerequisites, p), "status") != JStr("verified") && !IsBlocked(Strings(e.row, "labels"))
  }

  ghost predicate ListDefect(e: Entry, m: Message) {
    match m
    case NotStrings(kind, id, field) =>
      kind == "issue" && id == e.key && ListsIssueField(field) && !IsTexts(Field(e.row, field))
    case NothingProduced(id) => id == e.key && Strings(e.row, "produces") == []
    case NothingConsumed(id) => id == e.key && Strings(e.row, "consumes") == []
    case _ => false
  }

  ghost predicate EvidenceUse(t: Tables, e: Entry, m: Message) {
    match m
    case UnknownEvidence(id, x) => id == e.key && x in Strings(e.row, "evidence") && !Known(t.evidence, x)
    case UnverifiedEvidence(id, x) =>
      id == e.key && x in Strings(e.row, "evidence") && Known(t.evidence, x)
      && Field(RowAt(t.evidence, x), "status") != JStr("verified")
    case _ => false
  }

  ghost predicate PrerequisiteMisuse(t: Tables, e: Entry, p: string, m: Message) {
    match m
    case UnknownPrerequisite(id, q) => id == e.key && q == p && !Known(t.prerequisites, p)
    case NotGated(id, q) =>
      id == e.key && q == p && Known(t.prerequisites, p) && Container(Gates(t, p)) && !HoldsText(Gates(t, p), e.key)
    case Queued(id, q) => id == e.key && q == p && Known(t.prerequisites, p) && QueuesTooEarly(t, e, p)
    case _ => false
  }

  /** One of the first `n` prerequisites is misused. */
  ghost predicate PrerequisiteUse(t: Tables, e: Entry, xs: seq<string>, n: nat, m: Message)
    requires n <= |xs|
  {
    n > 0 && (PrerequisiteUse(t, e, xs, n - 1, m) || PrerequisiteMisuse(t, e, xs[n - 1], m))
  }

  ghost predicate ReferenceUse(t: Tables, e: Entry, m: Message) {
    match m
    case UnknownControl(id, x) => id == e.key && x in Strings(e.row, "controls") && !Known(t.controls, x)
    case UnknownIssueTest(id, x) => id == e.key && x in Strings(e.row, "negative_tests") && !Known(t.tests, x)
    case UnknownDependency(id, x) => id == e.key && x in Strings(e.row, "depends_on") && !Known(t.issues, x)
    case UnknownGroup(id, x) => id == e.key && x in Strings(e.row, "atomic_groups") && !Known(t.groups, x)
    case _ => false
  }

  ghost predicate IssueDefect(t: Tables, e: Entry, m: Message) {
    var xs := Strings(e.row, "prerequisites");
    ListDefect(e, m) || EvidenceUse(t, e, m) || PrerequisiteUse(t, e, xs, |xs|, m) || ReferenceUse(t, e, m)
  }

  method ReadLists(e: Entry, findings: Findings)
    requires findings.Valid()
    modifies findings
    ensures findings.Valid()
    ensures forall m :: m in findings.all <==>
      (m in old(findings.all) || (m.NotStrings? && m.kind == "issue" && m.id == e.key && ListsIssueField(m.field)
                                  && !IsTexts(Field(e.row, m.field))))
  {
    var fields := ["evidence", "produces", "consumes", "prerequisites", "controls",
                   "negative_tests", "covers", "depends_on", "labels", "atomic_groups"];
    InFirstAll(fields);
    for i := 0 to |fields|
      invariant findings.Valid()
      invariant forall m :: m in findings.all <==>
        (m in old(findings.all) || (m.NotStrings? && m.kind == "issue" && m.id == e.key && InFirst(fields, i, m.field)
                                    && !IsTexts(Field(e.row, m.field))))
    {
      var _ := StringList(e.row, fields[i], "issue", e.key, findings);
    }
  }

  method CheckIssueLists(e: Entry, findings: Findings)
    requires findings.Valid()
    modifies findings
    ensures findings.Valid()
    ensures forall m :: m in findings.all <==> m in old(findings.all) || ListDefect(e, m)
  {
    ReadLists(e, findings);
    if Strings(e.row, "produces") == [] {
      findings.Add(NothingProduced(e.key));
    }
    if Strings(e.row, "consumes") == [] {
      findings.Add(NothingConsumed(e.key));
    }
  }

  method CheckEvidenceUse(t: Tables, e: Entry, findings: Findings)
    requires findings.Valid()
    modifies findings
    ensures findings.Valid()
    ensures forall m :: m in findings.all <==> m in old(findings.all) || EvidenceUse(t, e, m)
  {
    var xs := Strings(e.row, "evidence");
    InFirstAll(xs);
    for i := 0 to |xs|
      invariant findings.Valid()
      invariant forall m :: m in findings.all <==>
        (m in old(findings.all)
         || (m.UnknownEvidence? && m.issue == e.key && InFirst(xs, i, m.evidence) && !Known(t.evidence, m.evidence))
         || (m.UnverifiedEvidence? && m.issue == e.key && InFirst(xs, i, m.evidence) && Known(t.evidence, m.evidence)
             && Field(RowAt(t.evidence, m.evidence), "status") != JStr("verified")))
    {
      if !Known(t.evidence, xs[i]) {
        findings.Add(UnknownEvidence(e.key, xs[i]));
      } else if Field(RowAt(t.evidence, xs[i]), "status") != JStr("verified") {
        findings.Add(UnverifiedEvidence(e.key, xs[i]));
      }
    }
  }

  lemma PrerequisiteMisuses(t: Tables, e: Entry, p: string, m: Message)
    requires !GateRefuses(t, p)
    ensures !Known(t.prerequisites, p) ==> (PrerequisiteMisuse(t, e, p, m) <==> m == UnknownPrerequisite(e.key, p))
    ensures Known(t.prerequisites, p) ==>
              (PrerequisiteMisuse(t, e, p, m) <==>
                 || (m == NotGated(e.key, p) && !HoldsText(Gates(t, p), e.key))
                 || (m == Queued(e.key, p) && QueuesTooEarly(t, e, p)))
  {
  }

  method CheckPrerequisite(t: Tables, e: Entry, p: string, findings: Findings)
    requires findings.Valid() && !GateRefuses(t, p)
    modifies findings
    ensures findings.Valid()
    ensures forall m :: m in findings.all <==> m in old(findings.all) || PrerequisiteMisuse(t, e, p, m)
  {
    forall m {
      PrerequisiteMisuses(t, e, p, m);
    }
    if !Known(t.prerequisites, p) {
      findings.Add(UnknownPrerequisite(e.key, p));
      return;
    }
    if !HoldsText(Gates(t, p), e.key) {
      findings.Add(NotGated(e.key, p));
    }
    if QueuesTooEarly(t, e, p) {
      findings.Add(Queued(e.key, p));
    }
  }

  method CheckPrerequisiteUse(t: Tables, e: Entry, xs: seq<string>, findings: Findings) returns (raised: bool)
    requires findings.Valid() && xs == Strings(e.row, "prerequisites")
    modifies findings
    ensures findings.Valid() && raised == IssueRaises(t, e)
    ensures !raised ==>
      forall m :: m in findings.all <==> m in old(findings.all) || PrerequisiteUse(t, e, xs, |xs|, m)
  {
    for i := 0 to |xs|
      invariant findings.Valid() && forall j :: 0 <= j < i ==> !GateRefuses(t, xs[j])
      invariant forall m :: m in findings.all <==> m in old(findings.all) || PrerequisiteUse(t, e, xs, i, m)
    {
      if GateRefuses(t, xs[i]) {
        return true;
      }
      CheckPrerequisite(t, e, xs[i], findings);
    }
    return false;
  }

  method CheckUsedControls(t: Tables, e: Entry, controls: seq<string>, findings: Findings)
    requires findings.Valid()
    modifies findings
    ensures findings.Valid()
    ensures forall m :: m in findings.all <==>
      (m in old(findings.all)
       || (m.UnknownControl? && m.issue == e.key && m.control in controls && !Known(t.controls, m.control)))
  {
    InFirstAll(controls);
    for i := 0 to |controls|
      invariant findings.Valid()
      invariant forall m :: m in findings.all <==>
        (m in old(findings.all)
         || (m.UnknownControl? && m.issue == e.key && InFirst(controls, i, m.control) && !Known(t.controls, m.control)))
    {
      if !Known(t.controls, controls[i]) {
        findings.Add(UnknownControl(e.key, controls[i]));
      }
    }
  }

  method CheckUsedTests(t: Tables, e: Entry, tests: seq<string>, findings: Findings)
    requires findings.Valid()
    modifies findings
    ensures findings.Valid()
    ensures forall m :: m in findings.all <==>
      (m in old(findings.all)
       || (m.UnknownIssueTest? && m.issue == e.key && m.test in tests && !Known(t.tests, m.test)))
  {
    InFirstAll(tests);
    for i := 0 to |tests|
      invariant findings.Valid()
      invariant forall m :: m in findings.all <==>
        (m in old(findings.all)
         || (m.UnknownIssueTest? && m.issue == e.key && InFirst(tests, i, m.test) && !Known(t.tests, m.test)))
    {
      if !Known(t.tests, tests[i]) {
        findings.Add(UnknownIssueTest(e.key, tests[i]));
      }
    }
  }

  method CheckDependencies(t: Tables, e: Entry, dependencies: seq<string>, findings: Findings)
    requires findings.Valid()
    modifies findings
    ensures findings.Valid()
    ensures forall m :: m in findings.all <==>
      (m in old(findings.all)
       || (m.UnknownDependency? && m.issue == e.key && m.dependency in dependencies && !Known(t.issues, m.dependency)))
  {
    InFirstAll(dependencies);
    for i := 0 to |dependencies|
      invariant findings.Valid()
      invariant forall m :: m in findings.all <==>
        (m in old(findings.all)
         || (m.UnknownDependency? && m.issue == e.key && InFirst(dependencies, i, m.dependency) && !Known(t.issues, m.dependency)))
    {
      if !Known(t.issues, dependencies[i]) {
        findings.Add(UnknownDependency(e.key, dependencies[i]));
      }
    }
  }

  method CheckGroups(t: Tables, e: Entry, groups: seq<string>, findings: Findings)
    requires findings.Valid()
    modifies findings
    ensures findings.Valid()
    ensures forall m :: m in findings.all <==>
      (m in old(findings.all)
       || (m.UnknownGroup? && m.issue == e.key && m.group in groups && !Known(t.groups, m.group)))
  {
    InFirstAll(groups);
    for i := 0 to |groups|
      invariant findings.Valid()
      invariant forall m :: m in findings.all <==>
        (m in old(findings.all)
         || (m.UnknownGroup? && m.issue == e.key && InFirst(groups, i, m.group) && !Known(t.groups, m.group)))
    {
      if !Known(t.groups, groups[i]) {
        findings.Add(UnknownGroup(e.key, groups[i]));
      }
    }
  }

  method CheckReferences(t: Tables, e: Entry, findings: Findings)
    requires findings.Valid()
    modifies findings
    ensures findings.Valid()
    ensures forall m :: m in findings.all <==> m in old(findings.all) || ReferenceUse(t, e, m)
  {
    CheckUsedControls(t, e, Strings(e.row, "controls"), findings);
    CheckUsedTests(t, e, Strings(e.row, "negative_tests"), findings);
    CheckDependencies(t, e, Strings(e.row, "depends_on"), findings);
    CheckGroups(t, e, Strings(e.row, "atomic_groups"), findings);
  }

  method CheckIssue(t: Tables, e: Entry, findings: Findings) returns (raised: bool)
    requires findings.Valid()
    modifies findings
    ensures findings.Valid() && raised == IssueRaises(t, e)
    ensures !raised ==> forall m :: m in findings.all <==> m in old(findings.all) || IssueDefect(t, e, m)
  {
    CheckIssueLists(e, findings);
    CheckEvidenceUse(t, e, findings);
    raised := CheckPrerequisiteUse(t, e, Strings(e.row, "prerequisites"), findings);
    if !raised {
      CheckReferences(t, e, findings);
    }
  }

  // ----- what the issues claim together -----

  /** The keys of the first `n` issues that list `x` in `field`. */
  function Listing(issues: seq<Entry>, field: string, x: string, n: nat): set<string>
    requires n <= |issues|
  {
    if n == 0 then {}
    else Listing(issues, field, x, n - 1) + if x in Strings(issues[n - 1].row, field) then {issues[n - 1].key} else {}
  }

  function Claimants(t: Tables, field: string, x: string): set<string> {
    Listing(t.issues, field, x, |t.issues|)
  }

  function GraphOf(issues: seq<Entry>, n: nat): Graph
    requires n <= |issues|
  {
    if n == 0 then map[] else GraphOf(issues, n - 1)[issues[n - 1].key := Strings(issues[n - 1].row, "depends_on")]
  }

  function OwnersIn(owners: map<string, set<string>>, x: string): set<string> {
    if x in owners then owners[x] else {}
  }

  /** `owners.setdefault(x, []).append(key)` for every `x`; only the elements are used later. */
  method AddOwner(owners: map<string, set<string>>, xs: seq<string>, key: string)
    returns (r: map<string, set<string>>)
    ensures forall x :: OwnersIn(r, x) == OwnersIn(owners, x) + if x in xs then {key} else {}
  {
    r := owners;
    InFirstAll(xs);
    for i := 0 to |xs|
      invariant forall x :: OwnersIn(r, x) == OwnersIn(owners, x) + if InFirst(xs, i, x) then {key} else {}
    {
      r := r[xs[i] := OwnersIn(r, xs[i]) + {key}];
    }
  }

  /** The sets and dictionaries filled while the issues are read. */
  datatype Claims = Claims(sections: set<string>, tests: set<string>, controls: set<string>,
                           producedBy: map<string, set<string>>, declaredBy: map<string, set<string>>, graph: Graph)

  ghost predicate Collects(all: set<string>, issues: seq<Entry>, field: string, n: nat)
    requires n <= |issues|
  {
    forall x :: x in all <==> Listing(issues, field, x, n) != {}
  }

  ghost predicate Attributes(owners: map<string, set<string>>, issues: seq<Entry>, field: string, n: nat)
    requires n <= |issues|
  {
    forall x :: OwnersIn(owners, x) == Listing(issues, field, x, n)
  }

  ghost predicate AreClaims(c: Claims, issues: seq<Entry>, n: nat)
    requires n <= |issues|
  {
    && Collects(c.sections, issues, "covers", n)
    && Collects(c.tests, issues, "negative_tests", n)
    && Collects(c.controls, issues, "controls", n)
    && Attributes(c.producedBy, issues, "produces", n)
    && Attributes(c.declaredBy, issues, "atomic_groups", n)
    && c.graph == GraphOf(issues, n)
  }

  lemma CollectsMore(all: set<string>, issues: seq<Entry>, field: string, n: nat)
    requires n < |issues| && Collects(all, issues, field, n)
    ensures Collects(all + Elements(Strings(issues[n].row, field)), issues, field, n + 1)
  {
    forall x ensures x in all + Elements(Strings(issues[n].row, field)) <==> Listing(issues, field, x, n + 1) != {} {
      if x in Strings(issues[n].row, field) {
        assert issues[n].key in Listing(issues, field, x, n + 1);
      } else {
        assert Listing(issues, field, x, n + 1) == Listing(issues, field, x, n);
      }
    }
  }

  method Collect(c: Claims, issues: seq<Entry>, n: nat) returns (r: Claims)
    requires n < |issues| && AreClaims(c, issues, n)
    ensures AreClaims(r, issues, n + 1)
  {
    var e := issues[n];
    var producedBy := AddOwner(c.producedBy, Strings(e.row, "produces"), e.key);
    var declaredBy := AddOwner(c.declaredBy, Strings(e.row, "atomic_groups"), e.key);
    CollectsMore(c.sections, issues, "covers", n);
    CollectsMore(c.tests, issues, "negative_tests", n);
    CollectsMore(c.controls, issues, "controls", n);
    r := Claims(c.sections + Elements(Strings(e.row, "covers")), c.tests + Elements(Strings(e.row, "negative_tests")),
                c.controls + Elements(Strings(e.row, "controls")), producedBy, declaredBy,
                c.graph[e.key := Strings(e.row, "depends_on")]);
  }

  predicate IssuesRaise(t: Tables, n: nat)
    requires n <= |t.issues|
  {
    n > 0 && (IssuesRaise(t, n - 1) || IssueRaises(t, t.issues[n - 1]))
  }

  ghost predicate IssuesDefect(t: Tables, n: nat, m: Message)
    requires n <= |t.issues|
  {
    n > 0 && (IssuesDefect(t, n - 1, m) || IssueDefect(t, t.issues[n - 1], m))
  }

  method CheckIssues(t: Tables, findings: Findings) returns (raised: bool, claims: Claims)
    requires findings.Valid()
    modifies findings
    ensures findings.Valid() && raised == IssuesRaise(t, |t.issues|)
    ensures !raised ==> AreClaims(claims, t.issues, |t.issues|)
    ensures !raised ==>
      forall m :: m in findings.all <==> m in old(findings.all) || IssuesDefect(t, |t.issues|, m)
  {
    claims := Claims({}, {}, {}, map[], map[], map[]);
    raised := false;
    for n := 0 to |t.issues|
      invariant findings.Valid() && raised == IssuesRaise(t, n)
      invariant !raised ==> AreClaims(claims, t.issues, n)
      invariant !raised ==> forall m :: m in findings.all <==> m in old(findings.all) || IssuesDefect(t, n, m)
    {
      if !raised {
        raised := CheckIssue(t, t.issues[n], findings);
        claims := Collect(claims, t.issues, n);
      }
    }
  }
}
