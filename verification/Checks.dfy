/** The checks of evidence, prerequisites, controls, threats and risks. */
module Checks {
  import opened Findings
  import opened Artifact

  datatype Tables = Tables(evidence: seq<Entry>, prerequisites: seq<Entry>, controls: seq<Entry>,
                           threats: seq<Entry>, tests: seq<Entry>, groups: seq<Entry>, issues: seq<Entry>)

  // ----- root -----

  function RequiredLists(): seq<string> {
    ["required_sections", "evidence", "facts", "assumptions", "priority_order", "threats",
     "blocking_prerequisites", "controls", "negative_tests", "residual_risks", "atomic_groups", "issues"]
  }

  predicate RootRaises(root: Row) {
    || !Container(ListField(root, "required_sections"))
    || (Truthy(Field(root, "priority_order")) && !Container(Field(root, "priority_order")))
  }

  predicate HasPriorities(v: Json)
    requires Truthy(v) ==> Container(v)
  {
    Truthy(v) && forall i :: 0 <= i < |Iterated(v)| ==> IsText(Iterated(v)[i])
  }

  ghost predicate RootDefect(root: Row, m: Message)
    requires !RootRaises(root)
  {
    match m
    case SchemaDiffers => Field(root, "schema") != JStr("autospec.security_database.v1")
    case ProfileDiffers => Field(root, "feature_profile") != JStr("security_database")
    case NoSpecPath => !IsText(Field(root, "spec_path"))
    case NotAList(name) => name in RequiredLists() && !Field(root, name).JList?
    case NoPriorities => !HasPriorities(Field(root, "priority_order"))
    case _ => false
  }

  method CheckLists(root: Row, names: seq<string>, findings: Findings)
    requires findings.Valid()
    modifies findings
    ensures findings.Valid()
    ensures forall m :: m in findings.all <==>
      (m in old(findings.all) || (m.NotAList? && m.name in names && !Field(root, m.name).JList?))
  {
    InFirstAll(names);
    for i := 0 to |names|
      invariant findings.Valid()
      invariant forall m :: m in findings.all <==>
        (m in old(findings.all) || (m.NotAList? && InFirst(names, i, m.name) && !Field(root, m.name).JList?))
    {
      if !Field(root, names[i]).JList? {
        findings.Add(NotAList(names[i]));
      }
    }
  }

  method CheckRoot(root: Row, findings: Findings) returns (raised: bool)
    requires findings.Valid()
    modifies findings
    ensures findings.Valid() && raised == RootRaises(root)
    ensures !raised ==> forall m :: m in findings.all <==> m in old(findings.all) || RootDefect(root, m)
  {
    if Field(root, "schema") != JStr("autospec.security_database.v1") {
      findings.Add(SchemaDiffers);
    }
    if Field(root, "feature_profile") != JStr("security_database") {
      findings.Add(ProfileDiffers);
    }
    if !IsText(Field(root, "spec_path")) {
      findings.Add(NoSpecPath);
    }
    CheckLists(root, RequiredLists(), findings);
    if RootRaises(root) {
      return true;
    }
    if !HasPriorities(Field(root, "priority_order")) {
      findings.Add(NoPriorities);
    }
    return false;
  }

  // ----- evidence and prerequisites -----

  predicate OneOf(v: Json, first: string, second: string) {
    v == JStr(first) || v == JStr(second)
  }

  predicate EvidenceState(v: Json) {
    OneOf(v, "verified", "assumed") || OneOf(v, "blocking", "accepted")
  }

  ghost predicate EvidenceDefect(e: Entry, m: Message) {
    match m
    case EvidenceStatus(id) => id == e.key && !EvidenceState(Field(e.row, "status"))
    case EvidenceSource(id) => id == e.key && !IsText(Field(e.row, "source"))
    case _ => false
  }

  predicate EvidenceRaises(e: Entry) {
    !Hashable(Field(e.row, "status"))
  }

  method CheckEvidence(table: seq<Entry>, findings: Findings) returns (raised: bool)
    requires findings.Valid()
    modifies findings
    ensures findings.Valid() && (raised <==> exists i :: 0 <= i < |table| && EvidenceRaises(table[i]))
    ensures !raised ==> forall m :: m in findings.all <==>
      (m in old(findings.all) || exists i :: 0 <= i < |table| && EvidenceDefect(table[i], m))
  {
    for n := 0 to |table|
      invariant findings.Valid() && forall i :: 0 <= i < n ==> !EvidenceRaises(table[i])
      invariant forall m :: m in findings.all <==>
        (m in old(findings.all) || exists i :: 0 <= i < n && EvidenceDefect(table[i], m))
    {
      var e := table[n];
      if EvidenceRaises(e) {
        return true;
      }
      ghost var before := findings.all;
      if !EvidenceState(Field(e.row, "status")) {
        findings.Add(EvidenceStatus(e.key));
      }
      if !IsText(Field(e.row, "source")) {
        findings.Add(EvidenceSource(e.key));
      }
      assert forall m :: m in findings.all <==> m in before || EvidenceDefect(table[n], m);
    }
    return false;
  }

  predicate PrerequisiteRaises(e: Entry) {
    !Hashable(Field(e.row, "status")) || !Hashable(Field(e.row, "evidence"))
  }

  /** `v` is the key of an entry. */
  predicate Names(table: seq<Entry>, v: Json) {
    v.JStr? && Known(table, v.text)
  }

  ghost predicate PrerequisiteDefect(t: Tables, e: Entry, m: Message) {
    match m
    case PrerequisiteStatus(id) => id == e.key && !OneOf(Field(e.row, "status"), "verified", "blocking")
    case PrerequisiteEvidence(id, v) => id == e.key && v == Field(e.row, "evidence") && !Names(t.evidence, v)
    case _ => false
  }

  method CheckPrerequisites(t: Tables, findings: Findings) returns (raised: bool)
    requires findings.Valid()
    modifies findings
    ensures findings.Valid()
    ensures raised <==> exists i :: 0 <= i < |t.prerequisites| && PrerequisiteRaises(t.prerequisites[i])
    ensures !raised ==> forall m :: m in findings.all <==>
      (m in old(findings.all) || exists i :: 0 <= i < |t.prerequisites| && PrerequisiteDefect(t, t.prerequisites[i], m))
  {
    for n := 0 to |t.prerequisites|
      invariant findings.Valid() && forall i :: 0 <= i < n ==> !PrerequisiteRaises(t.prerequisites[i])
      invariant forall m :: m in findings.all <==>
        (m in old(findings.all) || exists i :: 0 <= i < n && PrerequisiteDefect(t, t.prerequisites[i], m))
    {
      var e := t.prerequisites[n];
      if PrerequisiteRaises(e) {
        return true;
      }
      ghost var before := findings.all;
      if !OneOf(Field(e.row, "status"), "verified", "blocking") {
        findings.Add(PrerequisiteStatus(e.key));
      }
      if !Names(t.evidence, Field(e.row, "evidence")) {
        findings.Add(PrerequisiteEvidence(e.key, Field(e.row, "evidence")));
      }
      assert forall m :: m in findings.all <==> m in before || PrerequisiteDefect(t, t.prerequisites[n], m);
    }
    return false;
  }

  // ----- controls -----

  predicate Catastrophic(row: Row) {
    OneOf(Field(row, "failure_consequence"), "data_loss", "unauthorized_disclosure")
  }

  predicate Authoritative(row: Row) {
    OneOf(Field(row, "owner"), "database", "platform") && Field(row, "authority") == JStr("authoritative")
  }

  predicate ControlRaises(e: Entry) {
    || !Hashable(Field(e.row, "failure_consequence"))
    || (Catastrophic(e.row) && !Hashable(Field(e.row, "owner")))
  }

  ghost predicate ControlDefect(t: Tables, e: Entry, m: Message) {
    var tests := Strings(e.row, "verification");
    match m
    case NotStrings(kind, id, field) =>
      kind == "control" && id == e.key && field == "verification" && !IsTexts(Field(e.row, "verification"))
    case NoTest(id) => id == e.key && tests == []
    case UnknownTest(id, test) => id == e.key && test in tests && !Known(t.tests, test)
    case NotAuthoritative(id) => id == e.key && Catastrophic(e.row) && !Authoritative(e.row)
    case _ => false
  }

  method CheckTests(t: Tables, id: string, tests: seq<string>, findings: Findings)
    requires findings.Valid()
    modifies findings
    ensures findings.Valid()
    ensures forall m :: m in findings.all <==>
      (m in old(findings.all) || (m.UnknownTest? && m.control == id && m.test in tests && !Known(t.tests, m.test)))
  {
    InFirstAll(tests);
    for i := 0 to |tests|
      invariant findings.Valid()
      invariant forall m :: m in findings.all <==>
        (m in old(findings.all)
         || (m.UnknownTest? && m.control == id && InFirst(tests, i, m.test) && !Known(t.tests, m.test)))
    {
      if !Known(t.tests, tests[i]) {
        findings.Add(UnknownTest(id, tests[i]));
      }
    }
  }

  lemma ControlDefects(t: Tables, e: Entry, m: Message)
    ensures ControlDefect(t, e, m) <==>
              || (m == NotStrings("control", e.key, "verification") && !IsTexts(Field(e.row, "verification")))
              || (m == NoTest(e.key) && Strings(e.row, "verification") == [])
              || (m.UnknownTest? && m.control == e.key && m.test in Strings(e.row, "verification") && !Known(t.tests, m.test))
              || (m == NotAuthoritative(e.key) && Catastrophic(e.row) && !Authoritative(e.row))
  {
  }

  method CheckControl(t: Tables, e: Entry, findings: Findings) returns (raised: bool)
    requires findings.Valid()
    modifies findings
    ensures findings.Valid() && raised == ControlRaises(e)
    ensures !raised ==> forall m :: m in findings.all <==> m in old(findings.all) || ControlDefect(t, e, m)
  {
    forall m {
      ControlDefects(t, e, m);
    }
    var tests := StringList(e.row, "verification", "control", e.key, findings);
    if tests == [] {
      findings.Add(NoTest(e.key));
    }
    CheckTests(t, e.key, tests, findings);
    if ControlRaises(e) {
      return true;
    }
    if Catastrophic(e.row) && !Authoritative(e.row) {
      findings.Add(NotAuthoritative(e.key));
    }
    return false;
  }

  method CheckControls(t: Tables, findings: Findings) returns (raised: bool)
    requires findings.Valid()
    modifies findings
    ensures findings.Valid()
    ensures raised <==> exists i :: 0 <= i < |t.controls| && ControlRaises(t.controls[i])
    ensures !raised ==> forall m :: m in findings.all <==>
      (m in old(findings.all) || exists i :: 0 <= i < |t.controls| && ControlDefect(t, t.controls[i], m))
  {
    for n := 0 to |t.controls|
      invariant findings.Valid() && forall i :: 0 <= i < n ==> !ControlRaises(t.controls[i])
      invariant forall m :: m in findings.all <==>
        (m in old(findings.all) || exists i :: 0 <= i < n && ControlDefect(t, t.controls[i], m))
    {
      var stop := CheckControl(t, t.controls[n], findings);
      if stop {
        return true;
      }
    }
    return false;
  }

  // ----- threats -----

  predicate Controls(e: Entry, threat: string) {
    Field(e.row, "threat_id") == JStr(threat)
  }

  predicate ThreatRaises(e: Entry) {
    !Hashable(Field(e.row, "threat_id"))
  }

  predicate Controlled(t: Tables, threat: string) {
    exists i :: 0 <= i < |t.controls| && Controls(t.controls[i], threat)
  }

  ghost predicate ThreatDefect(t: Tables, m: Message) {
    match m
    case Uncontrolled(threat) => Known(t.threats, threat) && !Controlled(t, threat)
    case UnknownThreat(control, v) =>
      exists i :: 0 <= i < |t.controls| && MissesThreat(t, t.controls[i], control, v)
    case _ => false
  }

  ghost predicate MissesThreat(t: Tables, e: Entry, control: string, v: Json) {
    control == e.key && v == Field(e.row, "threat_id") && !Names(t.threats, v)
  }

  method CheckThreats(t: Tables, findings: Findings) returns (raised: bool)
    requires findings.Valid()
    modifies findings
    ensures findings.Valid()
    ensures raised <==> exists i :: 0 <= i < |t.controls| && ThreatRaises(t.controls[i])
    ensures !raised ==> forall m :: m in findings.all <==> m in old(findings.all) || ThreatDefect(t, m)
  {
    if exists i :: 0 <= i < |t.controls| && ThreatRaises(t.controls[i]) {
      return true;
    }
    for n := 0 to |t.threats|
      invariant findings.Valid()
      invariant forall m :: m in findings.all <==>
        (m in old(findings.all) || (m.Uncontrolled? && Find(t.threats, m.threat, n) < |t.threats|
                                    && !Controlled(t, m.threat)))
    {
      if !Controlled(t, t.threats[n].key) {
        findings.Add(Uncontrolled(t.threats[n].key));
      }
    }
    ghost var before := findings.all;
    for n := 0 to |t.controls|
      invariant findings.Valid()
      invariant forall m :: m in findings.all <==>
        (m in before || (m.UnknownThreat?
                         && exists i :: 0 <= i < n && MissesThreat(t, t.controls[i], m.control, m.reference)))
    {
      var e := t.controls[n];
      if !Names(t.threats, Field(e.row, "threat_id")) {
        assert MissesThreat(t, t.controls[n], e.key, Field(e.row, "threat_id"));
        findings.Add(UnknownThreat(e.key, Field(e.row, "threat_id")));
      }
    }
    return false;
  }

  // ----- residual risks -----

  predicate Accepted(row: Row) {
    Field(row, "status") == JStr("accepted") && IsText(Field(row, "summary"))
  }

  ghost predicate RiskDefect(rows: seq<Row>, n: nat, m: Message)
    requires n <= |rows|
  {
    m.RiskNotAccepted? && m.index < n && !Accepted(rows[m.index])
  }

  method CheckRisks(rows: seq<Row>, findings: Findings)
    requires findings.Valid()
    modifies findings
    ensures findings.Valid()
    ensures forall m :: m in findings.all <==> m in old(findings.all) || RiskDefect(rows, |rows|, m)
  {
    for n := 0 to |rows|
      invariant findings.Valid()
      invariant forall m :: m in findings.all <==> m in old(findings.all) || RiskDefect(rows, n, m)
    {
      if !Accepted(rows[n]) {
        findings.Add(RiskNotAccepted(n));
      }
    }
  }
}
