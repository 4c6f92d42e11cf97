/** What the artifact validator reports, and when it stops, for every document. */
module Verdict {
  import opened Findings
  import opened Artifact
  import opened Checks
  import opened Issues
  import opened Ownership
  import opened Validator
  import opened Documents
  import opened Rules

  // ----- all rules -----

  ghost predicate SomeEvidence(root: Row, f: Finding) {
    exists id, row :: IsEntry(root, "evidence", "id", id, row) && EvidenceBroken(id, row, f)
  }

  ghost predicate SomePrerequisite(root: Row, f: Finding) {
    exists id, row :: IsEntry(root, "blocking_prerequisites", "id", id, row) && PrerequisiteBroken(root, id, row, f)
  }

  ghost predicate SomeControl(root: Row, f: Finding) {
    exists id, row :: IsEntry(root, "controls", "id", id, row) && ControlBroken(root, id, row, f)
  }

  ghost predicate SomeIssue(root: Row, f: Finding) {
    exists key, row :: IsEntry(root, "issues", "key", key, row) && IssueBroken(root, key, row, f)
  }

  ghost predicate SomeGate(root: Row, f: Finding) {
    exists id, row :: IsEntry(root, "blocking_prerequisites", "id", id, row) && GateBroken(root, id, row, f)
  }

  ghost predicate SomeGroup(root: Row, f: Finding) {
    exists id, row :: IsEntry(root, "atomic_groups", "id", id, row) && GroupBroken(root, id, row, f)
  }

  ghost predicate SomeTable(root: Row, f: Finding) {
    || TableBroken(root, "evidence", "id", f)
    || TableBroken(root, "blocking_prerequisites", "id", f)
    || TableBroken(root, "controls", "id", f)
    || TableBroken(root, "threats", "id", f)
    || TableBroken(root, "negative_tests", "id", f)
    || TableBroken(root, "atomic_groups", "id", f)
    || TableBroken(root, "issues", "key", f)
    || ListBroken(root, "residual_risks", f)
  }

  /** The document breaks the finding's rule in the way its message says. */
  ghost predicate Broken(root: Row, f: Finding) {
    || RootBroken(root, f)
    || SomeTable(root, f)
    || SomeEvidence(root, f)
    || SomePrerequisite(root, f)
    || SomeControl(root, f)
    || ThreatBroken(root, f)
    || RiskBroken(root, f)
    || SomeIssue(root, f)
    || OwnershipBroken(root, f)
    || SomeGate(root, f)
    || SomeGroup(root, f)
  }

  lemma TablesIff(root: Row, f: Finding)
    ensures SomeTable(root, f)
       <==> f.rule == RuleOf(f.message) && (TablesDefect(root, f.message) || RowsDefect(root, "residual_risks", f.message))
  {
    TableIff(root, "evidence", "id", f);
    TableIff(root, "blocking_prerequisites", "id", f);
    TableIff(root, "controls", "id", f);
    TableIff(root, "threats", "id", f);
    TableIff(root, "negative_tests", "id", f);
    TableIff(root, "atomic_groups", "id", f);
    TableIff(root, "issues", "key", f);
    ListIff(root, "residual_risks", f);
  }

  lemma EvidencesIff(root: Row, t: Tables, f: Finding)
    requires t == TablesOf(root)
    ensures SomeEvidence(root, f)
       <==> f.rule == RuleOf(f.message) && exists i :: 0 <= i < |t.evidence| && EvidenceDefect(t.evidence[i], f.message)
  {
    if i :| 0 <= i < |t.evidence| && EvidenceDefect(t.evidence[i], f.message) {
      EntryAt(root, "evidence", "id", t.evidence, i);
      EvidenceIff(t.evidence[i].key, t.evidence[i].row, f);
    }
    if id, row :| IsEntry(root, "evidence", "id", id, row) && EvidenceBroken(id, row, f) {
      var i := PlaceOf(root, "evidence", "id", t.evidence, id, row);
      EvidenceIff(id, row, f);
    }
  }

  lemma PrerequisitesIff(root: Row, t: Tables, f: Finding)
    requires t == TablesOf(root)
    ensures SomePrerequisite(root, f)
       <==> f.rule == RuleOf(f.message)
            && exists i :: 0 <= i < |t.prerequisites| && PrerequisiteDefect(t, t.prerequisites[i], f.message)
  {
    if i :| 0 <= i < |t.prerequisites| && PrerequisiteDefect(t, t.prerequisites[i], f.message) {
      EntryAt(root, "blocking_prerequisites", "id", t.prerequisites, i);
      PrerequisiteIff(root, t, t.prerequisites[i].key, t.prerequisites[i].row, f);
    }
    if id, row :| IsEntry(root, "blocking_prerequisites", "id", id, row) && PrerequisiteBroken(root, id, row, f) {
      var i := PlaceOf(root, "blocking_prerequisites", "id", t.prerequisites, id, row);
      PrerequisiteIff(root, t, id, row, f);
    }
  }

  lemma ControlsIff(root: Row, t: Tables, f: Finding)
    requires t == TablesOf(root)
    ensures SomeControl(root, f)
       <==> f.rule == RuleOf(f.message) && exists i :: 0 <= i < |t.controls| && ControlDefect(t, t.controls[i], f.message)
  {
    if i :| 0 <= i < |t.controls| && ControlDefect(t, t.controls[i], f.message) {
      EntryAt(root, "controls", "id", t.controls, i);
      ControlIff(root, t, t.controls[i].key, t.controls[i].row, f);
    }
    if id, row :| IsEntry(root, "controls", "id", id, row) && ControlBroken(root, id, row, f) {
      var i := PlaceOf(root, "controls", "id", t.controls, id, row);
      ControlIff(root, t, id, row, f);
    }
  }

  ghost predicate OneIssue(t: Tables, n: nat, m: Message)
    requires n <= |t.issues|
  {
    exists i :: 0 <= i < n && IssueDefect(t, t.issues[i], m)
  }

  lemma OneMoreIssue(t: Tables, n: nat, m: Message, last: bool)
    requires 0 < n <= |t.issues| && (last <==> IssueDefect(t, t.issues[n - 1], m))
    ensures OneIssue(t, n, m) <==> OneIssue(t, n - 1, m) || last
  {
  }

  lemma {:induction false} IssuesAre(t: Tables, n: nat, m: Message)
    requires n <= |t.issues|
    ensures IssuesDefect(t, n, m) <==> OneIssue(t, n, m)
  {
    if n > 0 {
      IssuesAre(t, n - 1, m);
      OneMoreIssue(t, n, m, IssueDefect(t, t.issues[n - 1], m));
    }
  }

  lemma IssuesIff(root: Row, t: Tables, f: Finding)
    requires t == TablesOf(root)
    ensures SomeIssue(root, f) <==> f.rule == RuleOf(f.message) && IssuesDefect(t, |t.issues|, f.message)
  {
    IssuesAre(t, |t.issues|, f.message);
    if i :| 0 <= i < |t.issues| && IssueDefect(t, t.issues[i], f.message) {
      EntryAt(root, "issues", "key", t.issues, i);
      IssueIff(root, t, t.issues[i].key, t.issues[i].row, f);
    }
    if key, row :| IsEntry(root, "issues", "key", key, row) && IssueBroken(root, key, row, f) {
      var i := PlaceOf(root, "issues", "key", t.issues, key, row);
      IssueIff(root, t, key, row, f);
    }
  }

  ghost predicate OneGate(t: Tables, n: nat, m: Message)
    requires n <= |t.prerequisites|
  {
    exists i :: 0 <= i < n && EntryGatesDefect(t, t.prerequisites[i], m)
  }

  lemma OneMoreGate(t: Tables, n: nat, m: Message, last: bool)
    requires 0 < n <= |t.prerequisites| && (last <==> EntryGatesDefect(t, t.prerequisites[n - 1], m))
    ensures OneGate(t, n, m) <==> OneGate(t, n - 1, m) || last
  {
  }

  lemma {:induction false} AllGatesAre(t: Tables, n: nat, m: Message)
    requires n <= |t.prerequisites|
    ensures AnyGatesDefect(t, n, m) <==> OneGate(t, n, m)
  {
    if n > 0 {
      AllGatesAre(t, n - 1, m);
      OneMoreGate(t, n, m, EntryGatesDefect(t, t.prerequisites[n - 1], m));
    }
  }

  lemma GatesIff(root: Row, t: Tables, f: Finding)
    requires t == TablesOf(root)
    ensures SomeGate(root, f) <==> f.rule == RuleOf(f.message) && AnyGatesDefect(t, |t.prerequisites|, f.message)
  {
    AllGatesAre(t, |t.prerequisites|, f.message);
    if i :| 0 <= i < |t.prerequisites| && EntryGatesDefect(t, t.prerequisites[i], f.message) {
      EntryAt(root, "blocking_prerequisites", "id", t.prerequisites, i);
      GateIff(root, t, t.prerequisites[i].key, t.prerequisites[i].row, f);
    }
    if id, row :| IsEntry(root, "blocking_prerequisites", "id", id, row) && GateBroken(root, id, row, f) {
      var i := PlaceOf(root, "blocking_prerequisites", "id", t.prerequisites, id, row);
      GateIff(root, t, id, row, f);
    }
  }

  lemma GroupsIff(root: Row, t: Tables, f: Finding)
    requires t == TablesOf(root)
    ensures SomeGroup(root, f) <==> f.rule == RuleOf(f.message) && AnyGroupDefect(t, |t.groups|, f.message)
  {
    if i :| 0 <= i < |t.groups| && GroupDefect(t, t.groups[i], f.message) {
      EntryAt(root, "atomic_groups", "id", t.groups, i);
      GroupIff(root, t, t.groups[i].key, t.groups[i].row, f);
    }
    if id, row :| IsEntry(root, "atomic_groups", "id", id, row) && GroupBroken(root, id, row, f) {
      var i := PlaceOf(root, "atomic_groups", "id", t.groups, id, row);
      GroupIff(root, t, id, row, f);
    }
  }

  lemma RecordsIff(root: Row, t: Tables, f: Finding)
    requires t == TablesOf(root)
    ensures SomeTable(root, f) || SomeEvidence(root, f) || SomePrerequisite(root, f) || SomeControl(root, f)
              || ThreatBroken(root, f) || RiskBroken(root, f)
       <==> f.rule == RuleOf(f.message) && (TablesDefect(root, f.message) || RecordsDefect(root, t, f.message))
  {
    TablesIff(root, f);
    EvidencesIff(root, t, f);
    PrerequisitesIff(root, t, f);
    ControlsIff(root, t, f);
    ThreatIff(root, t, f);
    RiskIff(root, RowsOf(root, "residual_risks"), f);
  }

  lemma WorkIff(root: Row, t: Tables, f: Finding)
    requires !RootRaises(root) && t == TablesOf(root)
    ensures SomeIssue(root, f) || OwnershipBroken(root, f) || SomeGate(root, f) || SomeGroup(root, f)
       <==> f.rule == RuleOf(f.message) && WorkDefect(t, SectionsOf(root), f.message)
  {
    IssuesIff(root, t, f);
    OwnershipIff(root, t, SectionsOf(root), f);
    GatesIff(root, t, f);
    GroupsIff(root, t, f);
  }

  lemma BrokenIff(root: Row, f: Finding)
    requires !RootRaises(root)
    ensures Broken(root, f) <==> f.rule == RuleOf(f.message) && Defect(root, f.message)
  {
    RootIff(root, f);
    RecordsIff(root, TablesOf(root), f);
    WorkIff(root, TablesOf(root), f);
  }

  /** Cycles apart, the findings returned are exactly the broken rules of the document. */
  lemma FindingsAreBroken(root: Row, items: seq<Finding>, f: Finding)
    requires !RootRaises(root) && Reports(root, items) && !f.message.Cycle?
    ensures f in items <==> Broken(root, f)
  {
    BrokenIff(root, f);
    assert Lists(items, f.message) <==> Finding(RuleOf(f.message), f.message) in items;
  }

  lemma RuleOfCycle(m: Message)
    ensures m.Cycle? <==> RuleOf(m) == DependencyCycle
  {
  }

  lemma ListedUnderRule(root: Row, items: seq<Finding>, f: Finding)
    requires !RootRaises(root) && Reports(root, items) && f in items
    ensures f.rule == RuleOf(f.message)
  {
  }

  /** And the findings about cycles stand under the rule for cycles. */
  lemma CyclesAreNamed(root: Row, items: seq<Finding>, f: Finding)
    requires !RootRaises(root) && Reports(root, items) && f in items
    ensures f.message.Cycle? <==> f.rule == DependencyCycle
  {
    ListedUnderRule(root, items, f);
    RuleOfCycle(f.message);
  }

  // ----- authority -----

  lemma UnprotectedIsBroken(root: Row, id: string, row: Row)
    requires IsEntry(root, "controls", "id", id, row) && Unprotected(row)
    ensures Broken(root, Finding(AuthoritativeControlMissing, NotAuthoritative(id)))
  {
    assert ControlBroken(root, id, row, Finding(AuthoritativeControlMissing, NotAuthoritative(id)));
  }

  /** In an artifact without findings the database or the platform owns, with authority, every control whose
      failure loses or discloses data. */
  lemma AcceptedIsAuthoritative(root: Row, id: string, row: Row)
    requires !RootRaises(root) && Reports(root, []) && IsEntry(root, "controls", "id", id, row)
    requires Field(row, "failure_consequence") == JStr("data_loss")
             || Field(row, "failure_consequence") == JStr("unauthorized_disclosure")
    ensures Field(row, "owner") == JStr("database") || Field(row, "owner") == JStr("platform")
    ensures Field(row, "authority") == JStr("authoritative")
  {
    FindingsAreBroken(root, [], Finding(AuthoritativeControlMissing, NotAuthoritative(id)));
    if Unprotected(row) {
      UnprotectedIsBroken(root, id, row);
    }
  }

  // ----- when the script stops -----

  predicate IsStructure(v: Json) {
    v.JList? || v.JMap?
  }

  ghost predicate RootStops(root: Row) {
    || !CanMention(ListField(root, "required_sections"))
    || Field(root, "priority_order") == JBool(true)
    || (Field(root, "priority_order").JNum? && Field(root, "priority_order") != JNum(0.0))
  }

  predicate EvidenceStops(row: Row) {
    IsStructure(Field(row, "status"))
  }

  predicate PrerequisiteStops(row: Row) {
    IsStructure(Field(row, "status")) || IsStructure(Field(row, "evidence"))
  }

  predicate ControlStops(row: Row) {
    || IsStructure(Field(row, "failure_consequence"))
    || IsStructure(Field(row, "threat_id"))
    || ((Field(row, "failure_consequence") == JStr("data_loss")
         || Field(row, "failure_consequence") == JStr("unauthorized_disclosure"))
        && IsStructure(Field(row, "owner")))
  }

  ghost predicate IssueStops(root: Row, row: Row) {
    exists p, e :: ListsText(row, "prerequisites", p) && IsEntry(root, "blocking_prerequisites", "id", p, e)
                   && !CanMention(ListField(e, "gates"))
  }

  ghost predicate GateStops(root: Row, row: Row) {
    exists issue, e :: ListsText(row, "gates", issue) && IsEntry(root, "issues", "key", issue, e)
                       && (!CanMention(ListField(e, "prerequisites"))
                           || (Field(row, "status") == JStr("blocking") && !CanMention(ListField(e, "labels"))))
  }

  /** A value has a kind that `in`, `for` or a set refuses where the script uses it so. */
  ghost predicate Stops(root: Row) {
    || RootStops(root)
    || (exists id, row :: IsEntry(root, "evidence", "id", id, row) && EvidenceStops(row))
    || (exists id, row :: IsEntry(root, "blocking_prerequisites", "id", id, row) && PrerequisiteStops(row))
    || (exists id, row :: IsEntry(root, "controls", "id", id, row) && ControlStops(row))
    || (exists key, row :: IsEntry(root, "issues", "key", key, row) && IssueStops(root, row))
    || (exists id, row :: IsEntry(root, "blocking_prerequisites", "id", id, row) && GateStops(root, row))
  }

  lemma EvidenceStopsIff(root: Row, t: Tables)
    requires t == TablesOf(root)
    ensures (exists id, row :: IsEntry(root, "evidence", "id", id, row) && EvidenceStops(row))
       <==> exists i :: 0 <= i < |t.evidence| && EvidenceRaises(t.evidence[i])
  {
    if i :| 0 <= i < |t.evidence| && EvidenceRaises(t.evidence[i]) {
      EntryAt(root, "evidence", "id", t.evidence, i);
    }
    if id, row :| IsEntry(root, "evidence", "id", id, row) && EvidenceStops(row) {
      var i := PlaceOf(root, "evidence", "id", t.evidence, id, row);
      assert EvidenceRaises(t.evidence[i]);
    }
  }

  lemma PrerequisiteStopsIff(root: Row, t: Tables)
    requires t == TablesOf(root)
    ensures (exists id, row :: IsEntry(root, "blocking_prerequisites", "id", id, row) && PrerequisiteStops(row))
       <==> exists i :: 0 <= i < |t.prerequisites| && PrerequisiteRaises(t.prerequisites[i])
  {
    if i :| 0 <= i < |t.prerequisites| && PrerequisiteRaises(t.prerequisites[i]) {
      EntryAt(root, "blocking_prerequisites", "id", t.prerequisites, i);
    }
    if id, row :| IsEntry(root, "blocking_prerequisites", "id", id, row) && PrerequisiteStops(row) {
      var i := PlaceOf(root, "blocking_prerequisites", "id", t.prerequisites, id, row);
      assert PrerequisiteRaises(t.prerequisites[i]);
    }
  }

  lemma ControlStopsIff(root: Row, t: Tables)
    requires t == TablesOf(root)
    ensures (exists id, row :: IsEntry(root, "controls", "id", id, row) && ControlStops(row))
       <==> || (exists i :: 0 <= i < |t.controls| && ControlRaises(t.controls[i]))
            || (exists i :: 0 <= i < |t.controls| && ThreatRaises(t.controls[i]))
  {
    if i :| 0 <= i < |t.controls| && (ControlRaises(t.controls[i]) || ThreatRaises(t.controls[i])) {
      EntryAt(root, "controls", "id", t.controls, i);
      assert ControlStops(t.controls[i].row);
    }
    if id, row :| IsEntry(root, "controls", "id", id, row) && ControlStops(row) {
      var i := PlaceOf(root, "controls", "id", t.controls, id, row);
      assert ControlRaises(t.controls[i]) || ThreatRaises(t.controls[i]);
    }
  }

  lemma {:induction false} IssuesRaiseAre(t: Tables, n: nat)
    requires n <= |t.issues|
    ensures IssuesRaise(t, n) <==> exists i :: 0 <= i < n && IssueRaises(t, t.issues[i])
  {
    if n > 0 {
      IssuesRaiseAre(t, n - 1);
    }
  }

  lemma IssueRaisesIff(root: Row, t: Tables, e: Entry)
    requires t == TablesOf(root)
    ensures IssueStops(root, e.row) <==> IssueRaises(t, e)
  {
    if p :| p in Strings(e.row, "prerequisites") && GateRefuses(t, p) {
      ListsTextIff(e.row, "prerequisites", p);
      RowsAre(root, "blocking_prerequisites", "id", t.prerequisites, p);
    }
    if p, row :| ListsText(e.row, "prerequisites", p) && IsEntry(root, "blocking_prerequisites", "id", p, row)
                 && !CanMention(ListField(row, "gates")) {
      ListsTextIff(e.row, "prerequisites", p);
      RowsAre(root, "blocking_prerequisites", "id", t.prerequisites, p);
      assert GateRefuses(t, p);
    }
  }

  lemma IssueStopsIff(root: Row, t: Tables)
    requires t == TablesOf(root)
    ensures (exists key, row :: IsEntry(root, "issues", "key", key, row) && IssueStops(root, row))
       <==> IssuesRaise(t, |t.issues|)
  {
    IssuesRaiseAre(t, |t.issues|);
    if i :| 0 <= i < |t.issues| && IssueRaises(t, t.issues[i]) {
      EntryAt(root, "issues", "key", t.issues, i);
      IssueRaisesIff(root, t, t.issues[i]);
    }
    if key, row :| IsEntry(root, "issues", "key", key, row) && IssueStops(root, row) {
      var i := PlaceOf(root, "issues", "key", t.issues, key, row);
      IssueRaisesIff(root, t, t.issues[i]);
    }
  }

  lemma {:induction false} GatesRaiseAre(t: Tables, e: Entry, gates: seq<string>, n: nat)
    requires n <= |gates|
    ensures GatesRaise(t, e, gates, n) <==> exists i :: 0 <= i < n && GateRaises(t, e, gates[i])
  {
    if n > 0 {
      GatesRaiseAre(t, e, gates, n - 1);
    }
  }

  lemma {:induction false} AllGatesRaiseAre(t: Tables, n: nat)
    requires n <= |t.prerequisites|
    ensures AnyGatesRaise(t, n) <==> exists i :: 0 <= i < n && EntryGatesRaise(t, t.prerequisites[i])
  {
    if n > 0 {
      AllGatesRaiseAre(t, n - 1);
    }
  }

  lemma GateRaisesIff(root: Row, t: Tables, e: Entry)
    requires t == TablesOf(root)
    ensures GateStops(root, e.row) <==> EntryGatesRaise(t, e)
  {
    var gates := Strings(e.row, "gates");
    GatesRaiseAre(t, e, gates, |gates|);
    if i :| 0 <= i < |gates| && GateRaises(t, e, gates[i]) {
      ListsTextIff(e.row, "gates", gates[i]);
      RowsAre(root, "issues", "key", t.issues, gates[i]);
    }
    if issue, row :| ListsText(e.row, "gates", issue) && IsEntry(root, "issues", "key", issue, row)
                     && (!CanMention(ListField(row, "prerequisites"))
                         || (Field(e.row, "status") == JStr("blocking") && !CanMention(ListField(row, "labels")))) {
      ListsTextIff(e.row, "gates", issue);
      RowsAre(root, "issues", "key", t.issues, issue);
      var i :| 0 <= i < |gates| && gates[i] == issue;
      assert GateRaises(t, e, gates[i]);
    }
  }

  lemma GateStopsIff(root: Row, t: Tables)
    requires t == TablesOf(root)
    ensures (exists id, row :: IsEntry(root, "blocking_prerequisites", "id", id, row) && GateStops(root, row))
       <==> AnyGatesRaise(t, |t.prerequisites|)
  {
    AllGatesRaiseAre(t, |t.prerequisites|);
    if i :| 0 <= i < |t.prerequisites| && EntryGatesRaise(t, t.prerequisites[i]) {
      EntryAt(root, "blocking_prerequisites", "id", t.prerequisites, i);
      GateRaisesIff(root, t, t.prerequisites[i]);
    }
    if id, row :| IsEntry(root, "blocking_prerequisites", "id", id, row) && GateStops(root, row) {
      var i := PlaceOf(root, "blocking_prerequisites", "id", t.prerequisites, id, row);
      GateRaisesIff(root, t, t.prerequisites[i]);
    }
  }

  /** The script stops with a type error exactly on such values. */
  lemma StopsIff(root: Row)
    ensures Raises(root) <==> Stops(root)
  {
    var t := TablesOf(root);
    EvidenceStopsIff(root, t);
    PrerequisiteStopsIff(root, t);
    ControlStopsIff(root, t);
    IssueStopsIff(root, t);
    GateStopsIff(root, t);
  }
}
