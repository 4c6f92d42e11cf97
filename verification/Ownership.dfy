/** The checks made once all issues are read: ownership, gates and atomic groups. */
module Ownership {
  import opened Findings
  import opened Artifact
  import opened Checks
  import opened Issues

  // ----- sections, tests and controls need an issue -----

  /** The strings among the required sections. */
  function Sections(values: seq<Json>, n: nat): (r: seq<string>)
    requires n <= |values|
  {
    if n == 0 then []
    else if values[n - 1].JStr? then Sections(values, n - 1) + [values[n - 1].text]
    else Sections(values, n - 1)
  }

  function SectionsOf(root: Row): seq<string>
    requires !RootRaises(root)
  {
    var values := Iterated(ListField(root, "required_sections"));
    Sections(values, |values|)
  }

  ghost predicate OwnershipDefect(t: Tables, sections: seq<string>, m: Message) {
    match m
    case Uncovered(x) => x in sections && Claimants(t, "covers", x) == {}
    case UnownedTest(x) => Known(t.tests, x) && Claimants(t, "negative_tests", x) == {}
    case UnownedControl(x) => Known(t.controls, x) && Claimants(t, "controls", x) == {}
    case _ => false
  }

  method CheckSections(sections: seq<string>, covered: set<string>, findings: Findings)
    requires findings.Valid()
    modifies findings
    ensures findings.Valid()
    ensures forall m :: m in findings.all <==>
      (m in old(findings.all) || (m.Uncovered? && m.section in sections && m.section !in covered))
  {
    InFirstAll(sections);
    for i := 0 to |sections|
      invariant findings.Valid()
      invariant forall m :: m in findings.all <==>
        (m in old(findings.all) || (m.Uncovered? && InFirst(sections, i, m.section) && m.section !in covered))
    {
      if sections[i] !in covered {
        findings.Add(Uncovered(sections[i]));
      }
    }
  }

  method CheckOwnedTests(tests: seq<Entry>, owned: set<string>, findings: Findings)
    requires findings.Valid()
    modifies findings
    ensures findings.Valid()
    ensures forall m :: m in findings.all <==>
      (m in old(findings.all) || (m.UnownedTest? && Known(tests, m.test) && m.test !in owned))
  {
    for i := 0 to |tests|
      invariant findings.Valid()
      invariant forall m :: m in findings.all <==>
        (m in old(findings.all) || (m.UnownedTest? && Find(tests, m.test, i) < |tests| && m.test !in owned))
    {
      if tests[i].key !in owned {
        findings.Add(UnownedTest(tests[i].key));
      }
    }
  }

  method CheckOwnedControls(controls: seq<Entry>, owned: set<string>, findings: Findings)
    requires findings.Valid()
    modifies findings
    ensures findings.Valid()
    ensures forall m :: m in findings.all <==>
      (m in old(findings.all) || (m.UnownedControl? && Known(controls, m.control) && m.control !in owned))
  {
    for i := 0 to |controls|
      invariant findings.Valid()
      invariant forall m :: m in findings.all <==>
        (m in old(findings.all) || (m.UnownedControl? && Find(controls, m.control, i) < |controls| && m.control !in owned))
    {
      if controls[i].key !in owned {
        findings.Add(UnownedControl(controls[i].key));
      }
    }
  }

  method CheckOwnership(t: Tables, sections: seq<string>, claims: Claims, findings: Findings)
    requires findings.Valid()
    requires Collects(claims.sections, t.issues, "covers", |t.issues|)
    requires Collects(claims.tests, t.issues, "negative_tests", |t.issues|)
    requires Collects(claims.controls, t.issues, "controls", |t.issues|)
    modifies findings
    ensures findings.Valid()
    ensures forall m :: m in findings.all <==> m in old(findings.all) || OwnershipDefect(t, sections, m)
  {
    CheckSections(sections, claims.sections, findings);
    CheckOwnedTests(t.tests, claims.tests, findings);
    CheckOwnedControls(t.controls, claims.controls, findings);
  }

  // ----- gates -----

  /** `"..." not in labels or "auto-implement" in labels`, negated, on the raw value. */
  predicate KeptBack(labels: Json)
    requires Container(labels)
  {
    HoldsText(labels, "autospec:blocked-prerequisite") && !HoldsText(labels, "auto-implement")
  }

  predicate IsBlocking(e: Entry) {
    Field(e.row, "status") == JStr("blocking")
  }

  function Back(t: Tables, issue: string): Json
    requires Known(t.issues, issue)
  {
    ListField(RowAt(t.issues, issue), "prerequisites")
  }

  function Labels(t: Tables, issue: string): Json
    requires Known(t.issues, issue)
  {
    ListField(RowAt(t.issues, issue), "labels")
  }

  predicate GateRaises(t: Tables, e: Entry, issue: string) {
    Known(t.issues, issue) && (!Container(Back(t, issue)) || (IsBlocking(e) && !Container(Labels(t, issue))))
  }

  ghost predicate GateDefect(t: Tables, e: Entry, issue: string, m: Message) {
    match m
    case UnknownGated(p, i) => p == e.key && i == issue && !Known(t.issues, issue)
    case NoReverse(p, i) =>
      p == e.key && i == issue && Known(t.issues, issue)
      && Container(Back(t, issue)) && !HoldsText(Back(t, issue), e.key)
    case Queued(i, p) =>
      p == e.key && i == issue && Known(t.issues, issue)
      && IsBlocking(e) && Container(Labels(t, issue)) && !KeptBack(Labels(t, issue))
    case _ => false
  }

  lemma GateDefects(t: Tables, e: Entry, issue: string, m: Message)
    requires !GateRaises(t, e, issue)
    ensures !Known(t.issues, issue) ==> (GateDefect(t, e, issue, m) <==> m == UnknownGated(e.key, issue))
    ensures Known(t.issues, issue) ==>
              (GateDefect(t, e, issue, m) <==>
                 || (m == NoReverse(e.key, issue) && !HoldsText(Back(t, issue), e.key))
                 || (m == Queued(issue, e.key) && IsBlocking(e) && !KeptBack(Labels(t, issue))))
  {
  }

  method CheckGate(t: Tables, e: Entry, issue: string, findings: Findings)
    requires findings.Valid() && !GateRaises(t, e, issue)
    modifies findings
    ensures findings.Valid()
    ensures forall m :: m in findings.all <==> m in old(findings.all) || GateDefect(t, e, issue, m)
  {
    forall m {
      GateDefects(t, e, issue, m);
    }
    if !Known(t.issues, issue) {
      findings.Add(UnknownGated(e.key, issue));
      return;
    }
    if !HoldsText(Back(t, issue), e.key) {
      findings.Add(NoReverse(e.key, issue));
    }
    if IsBlocking(e) && !KeptBack(Labels(t, issue)) {
      findings.Add(Queued(issue, e.key));
    }
  }

  predicate GatesRaise(t: Tables, e: Entry, gates: seq<string>, n: nat)
    requires n <= |gates|
  {
    n > 0 && (GatesRaise(t, e, gates, n - 1) || GateRaises(t, e, gates[n - 1]))
  }

  ghost predicate GatesDefect(t: Tables, e: Entry, gates: seq<string>, n: nat, m: Message)
    requires n <= |gates|
  {
    n > 0 && (GatesDefect(t, e, gates, n - 1, m) || GateDefect(t, e, gates[n - 1], m))
  }

  ghost predicate GateListDefect(e: Entry, m: Message) {
    match m
    case NotStrings(kind, id, field) =>
      kind == "prerequisite" && id == e.key && field == "gates" && !IsTexts(Field(e.row, "gates"))
    case NoGates(id) => id == e.key && Strings(e.row, "gates") == []
    case _ => false
  }

  method CheckGates(t: Tables, e: Entry, findings: Findings) returns (raised: bool)
    requires findings.Valid()
    modifies findings
    ensures findings.Valid() && raised == GatesRaise(t, e, Strings(e.row, "gates"), |Strings(e.row, "gates")|)
    ensures !raised ==> forall m :: m in findings.all <==>
      (m in old(findings.all) || GateListDefect(e, m)
       || GatesDefect(t, e, Strings(e.row, "gates"), |Strings(e.row, "gates")|, m))
  {
    var gates := StringList(e.row, "gates", "prerequisite", e.key, findings);
    if gates == [] {
      findings.Add(NoGates(e.key));
    }
    ghost var before := findings.all;
    assert forall m :: m in before <==> m in old(findings.all) || GateListDefect(e, m);
    raised := false;
    for i := 0 to |gates|
      invariant findings.Valid() && raised == GatesRaise(t, e, gates, i)
      invariant !raised ==> forall m :: m in findings.all <==> m in before || GatesDefect(t, e, gates, i, m)
    {
      raised := raised || GateRaises(t, e, gates[i]);
      if !raised {
        CheckGate(t, e, gates[i], findings);
      }
    }
  }

  // ----- atomic groups -----

  /** All issues that produce one of the first `n` members. */
  function Producers(t: Tables, members: seq<string>, n: nat): set<string>
    requires n <= |members|
  {
    if n == 0 then {} else Producers(t, members, n - 1) + Claimants(t, "produces", members[n - 1])
  }

  function MemberOwners(t: Tables, e: Entry): set<string> {
    Producers(t, Strings(e.row, "members"), |Strings(e.row, "members")|)
  }

  predicate IsSplit(owners: set<string>, declared: set<string>) {
    |owners| > 1 || |declared| > 1 || owners != declared
  }

  ghost predicate MemberDefect(t: Tables, e: Entry, m: Message) {
    match m
    case NotStrings(kind, id, field) =>
      kind == "atomic group" && id == e.key && field == "members" && !IsTexts(Field(e.row, "members"))
    case UnownedMember(id, x) =>
      id == e.key && x in Strings(e.row, "members") && Claimants(t, "produces", x) == {}
    case _ => false
  }

  ghost predicate GroupDefect(t: Tables, e: Entry, m: Message) {
    || MemberDefect(t, e, m)
    || SplitDefect(e, MemberOwners(t, e), Claimants(t, "atomic_groups", e.key), m)
  }

  ghost predicate SplitDefect(e: Entry, owners: set<string>, declared: set<string>, m: Message) {
    IsSplit(owners, declared) && m == GroupSplit(e.key, owners + declared)
  }

  method CheckMembers(t: Tables, id: string, members: seq<string>, producedBy: map<string, set<string>>,
                      findings: Findings)
    returns (owners: set<string>)
    requires findings.Valid() && Attributes(producedBy, t.issues, "produces", |t.issues|)
    modifies findings
    ensures findings.Valid() && owners == Producers(t, members, |members|)
    ensures forall m :: m in findings.all <==>
      (m in old(findings.all) || (m.UnownedMember? && m.group == id && m.member in members
                                  && Claimants(t, "produces", m.member) == {}))
  {
    owners := {};
    InFirstAll(members);
    for i := 0 to |members|
      invariant findings.Valid() && owners == Producers(t, members, i)
      invariant forall m :: m in findings.all <==>
        (m in old(findings.all) || (m.UnownedMember? && m.group == id && InFirst(members, i, m.member)
                                    && Claimants(t, "produces", m.member) == {}))
    {
      var producers := OwnersIn(producedBy, members[i]);
      if producers == {} {
        findings.Add(UnownedMember(id, members[i]));
      }
      owners := owners + producers;
    }
  }

  lemma MemberDefects(t: Tables, e: Entry, m: Message)
    ensures MemberDefect(t, e, m) <==>
              || (m == NotStrings("atomic group", e.key, "members") && !IsTexts(Field(e.row, "members")))
              || (m.UnownedMember? && m.group == e.key && m.member in Strings(e.row, "members")
                  && Claimants(t, "produces", m.member) == {})
  {
  }

  method ReadMembers(t: Tables, e: Entry, producedBy: map<string, set<string>>, findings: Findings)
    returns (owners: set<string>)
    requires findings.Valid() && Attributes(producedBy, t.issues, "produces", |t.issues|)
    modifies findings
    ensures findings.Valid() && owners == MemberOwners(t, e)
    ensures forall m :: m in findings.all <==> m in old(findings.all) || MemberDefect(t, e, m)
  {
    forall m {
      MemberDefects(t, e, m);
    }
    var members := StringList(e.row, "members", "atomic group", e.key, findings);
    owners := CheckMembers(t, e.key, members, producedBy, findings);
  }

  method CheckSplit(e: Entry, owners: set<string>, declared: set<string>, findings: Findings)
    requires findings.Valid()
    modifies findings
    ensures findings.Valid()
    ensures forall m :: m in findings.all <==> m in old(findings.all) || SplitDefect(e, owners, declared, m)
  {
    if IsSplit(owners, declared) {
      findings.Add(GroupSplit(e.key, owners + declared));
    }
  }

  method CheckGroup(t: Tables, e: Entry, claims: Claims, findings: Findings)
    requires findings.Valid()
    requires Attributes(claims.producedBy, t.issues, "produces", |t.issues|)
    requires Attributes(claims.declaredBy, t.issues, "atomic_groups", |t.issues|)
    modifies findings
    ensures findings.Valid()
    ensures forall m :: m in findings.all <==> m in old(findings.all) || GroupDefect(t, e, m)
  {
    var owners := ReadMembers(t, e, claims.producedBy, findings);
    var declared := OwnersIn(claims.declaredBy, e.key);
    CheckSplit(e, owners, declared, findings);
  }
}
