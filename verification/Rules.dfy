/** The rules of the artifact validator, stated over the document itself. */
module Rules {
  import opened Basics
  import opened Findings
  import opened Artifact
  import opened Checks
  import opened Issues
  import opened Ownership
  import opened Validator
  import opened Accepted
  import opened Documents

  // ----- values -----

  /** `s` is an element of the list, a part of the string, or a key of the mapping. */
  ghost predicate Mentions(v: Json, s: string) {
    match v
    case JList(items) => JStr(s) in items
    case JStr(text) => exists i, j :: 0 <= i <= j <= |text| && text[i..j] == s
    case JMap(pairs) => exists i :: 0 <= i < |pairs| && pairs[i].key == s
    case _ => false
  }

  predicate CanMention(v: Json) {
    v.JList? || v.JStr? || v.JMap?
  }

  lemma {:induction false} HasKeyIff(row: Row, key: string, n: nat)
    requires n <= |row|
    ensures HasKey(row, key, n) <==> exists i :: 0 <= i < n && row[i].key == key
  {
    if n > 0 {
      HasKeyIff(row, key, n - 1);
    }
  }

  lemma PartIff(text: string, s: string)
    ensures Contains(text, s) <==> exists i, j :: 0 <= i <= j <= |text| && text[i..j] == s
  {
    ContainsIff(text, s);
    if i: nat :| OccursAt(text, s, i) {
      assert text[i..i + |s|] == s;
    }
    if i, j :| 0 <= i <= j <= |text| && text[i..j] == s {
      assert OccursAt(text, s, i);
    }
  }

  lemma MentionsIff(v: Json, s: string)
    ensures Container(v) <==> CanMention(v)
    ensures Container(v) ==> (HoldsText(v, s) <==> Mentions(v, s))
  {
    match v
    case JStr(text) => PartIff(text, s);
    case JMap(pairs) => HasKeyIff(pairs, s, |pairs|);
    case _ =>
  }

  // ----- rows and tables -----

  lemma EntryAt(root: Row, name: string, field: string, table: seq<Entry>, i: nat)
    requires table == TableOf(root, name, field) && i < |table|
    ensures IsEntry(root, name, field, table[i].key, table[i].row)
  {
    EntryIff(root, name, field, table[i].key, table[i].row);
    assert table[i] == Entry(table[i].key, table[i].row);
  }

  lemma PlaceOf(root: Row, name: string, field: string, table: seq<Entry>, key: string, row: Row) returns (i: nat)
    requires table == TableOf(root, name, field) && IsEntry(root, name, field, key, row)
    ensures i < |table| && table[i] == Entry(key, row)
  {
    EntryIff(root, name, field, key, row);
    i :| 0 <= i < |table| && table[i] == Entry(key, row);
  }

  /** A key is known exactly when some row stands under it, and that row is the one found. */
  lemma RowIff(root: Row, name: string, field: string, table: seq<Entry>, key: string, row: Row)
    requires table == TableOf(root, name, field)
    ensures IsEntry(root, name, field, key, row) <==> Known(table, key) && RowAt(table, key) == row
  {
    EntryIff(root, name, field, key, row);
    if Entry(key, row) in table {
      var i :| 0 <= i < |table| && table[i] == Entry(key, row);
      EntryFound(root, name, field, i);
    }
    if Known(table, key) {
      assert table[Find(table, key, |table|)] == Entry(key, RowAt(table, key));
    }
  }

  lemma RowsAre(root: Row, name: string, field: string, table: seq<Entry>, key: string)
    requires table == TableOf(root, name, field)
    ensures forall row :: IsEntry(root, name, field, key, row) <==> Known(table, key) && RowAt(table, key) == row
    ensures Known(table, key) ==> IsEntry(root, name, field, key, RowAt(table, key))
    ensures Known(table, key) <==> IsKey(root, name, field, key)
  {
    forall row ensures IsEntry(root, name, field, key, row) <==> Known(table, key) && RowAt(table, key) == row {
      RowIff(root, name, field, table, key, row);
    }
    KeyIff(root, name, field, key);
  }

  // ----- evidence -----

  ghost predicate EvidenceBroken(id: string, row: Row, f: Finding) {
    && f.rule == ProfileSchemaInvalid
    && match f.message
       case EvidenceStatus(other) =>
         other == id && Field(row, "status") !in [JStr("verified"), JStr("assumed"), JStr("blocking"), JStr("accepted")]
       case EvidenceSource(other) => other == id && !IsFilled(Field(row, "source"))
       case _ => false
  }

  lemma EvidenceIff(id: string, row: Row, f: Finding)
    ensures EvidenceBroken(id, row, f) <==> f.rule == RuleOf(f.message) && EvidenceDefect(Entry(id, row), f.message)
  {
  }

  // ----- prerequisites -----

  ghost predicate PrerequisiteBroken(root: Row, id: string, row: Row, f: Finding) {
    && f.rule == ProfileSchemaInvalid
    && match f.message
       case PrerequisiteStatus(other) => other == id && Field(row, "status") !in [JStr("verified"), JStr("blocking")]
       case PrerequisiteEvidence(other, v) =>
         other == id && v == Field(row, "evidence") && !(v.JStr? && IsKey(root, "evidence", "id", v.text))
       case _ => false
  }

  lemma PrerequisiteIff(root: Row, t: Tables, id: string, row: Row, f: Finding)
    requires t == TablesOf(root)
    ensures PrerequisiteBroken(root, id, row, f)
       <==> f.rule == RuleOf(f.message) && PrerequisiteDefect(t, Entry(id, row), f.message)
  {
    var v := Field(row, "evidence");
    if v.JStr? {
      KeyIff(root, "evidence", "id", v.text);
    }
  }

  // ----- controls -----

  /** A failure of the control loses or discloses data, and no database or platform owns it with authority. */
  predicate Unprotected(row: Row) {
    && (Field(row, "failure_consequence") == JStr("data_loss")
        || Field(row, "failure_consequence") == JStr("unauthorized_disclosure"))
    && !((Field(row, "owner") == JStr("database") || Field(row, "owner") == JStr("platform"))
         && Field(row, "authority") == JStr("authoritative"))
  }

  ghost predicate ControlBroken(root: Row, id: string, row: Row, f: Finding) {
    match f.message
    case NotStrings(kind, other, field) =>
      f.rule == ProfileSchemaInvalid && kind == "control" && other == id && field == "verification"
      && !AreFilled(Field(row, "verification"))
    case NoTest(other) =>
      f.rule == ControlWithoutTest && other == id && forall x :: !ListsText(row, "verification", x)
    case UnknownTest(other, x) =>
      f.rule == ProfileSchemaInvalid && other == id && ListsText(row, "verification", x)
      && !IsKey(root, "negative_tests", "id", x)
    case NotAuthoritative(other) => f.rule == AuthoritativeControlMissing && other == id && Unprotected(row)
    case _ => false
  }

  lemma VerificationIff(root: Row, t: Tables, row: Row, x: string)
    requires t == TablesOf(root)
    ensures AreFilled(Field(row, "verification")) <==> IsTexts(Field(row, "verification"))
    ensures (forall x :: !ListsText(row, "verification", x)) <==> Strings(row, "verification") == []
    ensures ListsText(row, "verification", x) <==> x in Strings(row, "verification")
    ensures IsKey(root, "negative_tests", "id", x) <==> Known(t.tests, x)
  {
    ListsNothingIff(row, "verification");
    ListsTextIff(row, "verification", x);
    KeyIff(root, "negative_tests", "id", x);
  }

  lemma ControlIff(root: Row, t: Tables, id: string, row: Row, f: Finding)
    requires t == TablesOf(root)
    ensures ControlBroken(root, id, row, f) <==> f.rule == RuleOf(f.message) && ControlDefect(t, Entry(id, row), f.message)
  {
    VerificationIff(root, t, row, if f.message.UnknownTest? then f.message.test else "");
  }

  // ----- threats and risks -----

  ghost predicate ThreatBroken(root: Row, f: Finding) {
    match f.message
    case Uncontrolled(threat) =>
      && f.rule == ThreatWithoutControl && IsKey(root, "threats", "id", threat)
      && forall id, row :: IsEntry(root, "controls", "id", id, row) ==> Field(row, "threat_id") != JStr(threat)
    case UnknownThreat(id, v) =>
      && f.rule == ProfileSchemaInvalid && !(v.JStr? && IsKey(root, "threats", "id", v.text))
      && exists row :: IsEntry(root, "controls", "id", id, row) && v == Field(row, "threat_id")
    case _ => false
  }

  lemma ControlledIff(root: Row, t: Tables, threat: string)
    requires t == TablesOf(root)
    ensures Controlled(t, threat)
       <==> exists id, row :: IsEntry(root, "controls", "id", id, row) && Field(row, "threat_id") == JStr(threat)
  {
    if i :| 0 <= i < |t.controls| && Checks.Controls(t.controls[i], threat) {
      EntryAt(root, "controls", "id", t.controls, i);
    }
    if id, row :| IsEntry(root, "controls", "id", id, row) && Field(row, "threat_id") == JStr(threat) {
      var i := PlaceOf(root, "controls", "id", t.controls, id, row);
      assert Checks.Controls(t.controls[i], threat);
    }
  }

  lemma MissesIff(root: Row, t: Tables, id: string, v: Json)
    requires t == TablesOf(root)
    ensures (exists i :: 0 <= i < |t.controls| && MissesThreat(t, t.controls[i], id, v))
       <==> !Checks.Names(t.threats, v) && exists row :: IsEntry(root, "controls", "id", id, row) && v == Field(row, "threat_id")
  {
    if i :| 0 <= i < |t.controls| && MissesThreat(t, t.controls[i], id, v) {
      EntryAt(root, "controls", "id", t.controls, i);
    }
    if row :| !Checks.Names(t.threats, v) && IsEntry(root, "controls", "id", id, row) && v == Field(row, "threat_id") {
      var i := PlaceOf(root, "controls", "id", t.controls, id, row);
      assert MissesThreat(t, t.controls[i], id, v);
    }
  }

  lemma ThreatIff(root: Row, t: Tables, f: Finding)
    requires t == TablesOf(root)
    ensures ThreatBroken(root, f) <==> f.rule == RuleOf(f.message) && ThreatDefect(t, f.message)
  {
    match f.message
    case Uncontrolled(threat) =>
      ControlledIff(root, t, threat);
      KeyIff(root, "threats", "id", threat);
    case UnknownThreat(id, v) =>
      MissesIff(root, t, id, v);
      if v.JStr? {
        KeyIff(root, "threats", "id", v.text);
      }
    case _ =>
  }

  ghost predicate RiskBroken(root: Row, f: Finding) {
    && f.rule == ProfileSchemaInvalid && f.message.RiskNotAccepted?
    && exists row :: IsMapping(root, "residual_risks", f.message.index, row)
                     && !(Field(row, "status") == JStr("accepted") && IsFilled(Field(row, "summary")))
  }

  lemma RiskIff(root: Row, rows: seq<Row>, f: Finding)
    requires rows == RowsOf(root, "residual_risks")
    ensures RiskBroken(root, f) <==> f.rule == RuleOf(f.message) && RiskDefect(rows, |rows|, f.message)
  {
    if f.message.RiskNotAccepted? {
      var i := f.message.index;
      forall row {
        MappingIff(root, "residual_risks", i, row);
      }
      assert i < |rows| ==> IsMapping(root, "residual_risks", i, rows[i]);
    }
  }

  // ----- the root and its tables -----

  ghost predicate TableBroken(root: Row, name: string, field: string, f: Finding) {
    && f.rule == ProfileSchemaInvalid
    && var v := Field(root, name);
       match f.message
       case NotAList(other) => other == name && !v.JList?
       case NotAMapping(other, i) => other == name && v.JList? && i < |v.items| && !v.items[i].JMap?
       case BadKey(other, i) =>
         other == name && exists row :: IsMapping(root, name, i, row) && !IsFilled(Field(row, field))
       case DuplicateKey(other, id) => other == name && v.JList? && TwiceIn(v.items, |v.items|, field, id)
       case _ => false
  }

  lemma TableIff(root: Row, name: string, field: string, f: Finding)
    ensures TableBroken(root, name, field, f) <==> f.rule == RuleOf(f.message) && TableDefect(root, name, field, f.message)
  {
    match f.message
    case BadKey(_, i) =>
      var rows := RowsOf(root, name);
      forall row {
        MappingIff(root, name, i, row);
      }
      assert i < |rows| ==> IsMapping(root, name, i, rows[i]);
    case DuplicateKey(_, id) => RepeatedIff(root, name, field, id);
    case _ =>
  }

  ghost predicate ListBroken(root: Row, name: string, f: Finding) {
    && f.rule == ProfileSchemaInvalid
    && match f.message
       case NotAList(other) => other == name && !Field(root, name).JList?
       case NotAMapping(other, i) =>
         other == name && Field(root, name).JList? && i < |Field(root, name).items| && !Field(root, name).items[i].JMap?
       case _ => false
  }

  lemma ListIff(root: Row, name: string, f: Finding)
    ensures ListBroken(root, name, f) <==> f.rule == RuleOf(f.message) && RowsDefect(root, name, f.message)
  {
  }

  /** A non-empty list of non-empty strings; a non-empty string, or mapping with non-empty keys, passes too. */
  predicate Prioritised(v: Json) {
    match v
    case JList(items) => items != [] && forall i :: 0 <= i < |items| ==> IsFilled(items[i])
    case JStr(text) => text != ""
    case JMap(pairs) => pairs != [] && forall i :: 0 <= i < |pairs| ==> pairs[i].key != ""
    case _ => false
  }

  lemma {:induction false} CharactersAre(s: string, n: nat)
    requires n <= |s|
    ensures forall i :: 0 <= i < n ==> Characters(s, n)[i] == JStr([s[i]])
  {
    if n > 0 {
      CharactersAre(s, n - 1);
    }
  }

  lemma {:induction false} KeysAre(row: Row, n: nat)
    requires n <= |row|
    ensures forall i :: 0 <= i < n ==> Keys(row, n)[i] == JStr(row[i].key)
  {
    if n > 0 {
      KeysAre(row, n - 1);
    }
  }

  lemma PrioritisedIff(v: Json)
    requires Truthy(v) ==> Container(v)
    ensures HasPriorities(v) <==> Prioritised(v)
  {
    match v
    case JStr(text) =>
      CharactersAre(text, |text|);
      assert forall i :: 0 <= i < |text| ==> IsText(Characters(text, |text|)[i]);
    case JMap(pairs) =>
      KeysAre(pairs, |pairs|);
      var keys := Keys(pairs, |pairs|);
      assert keys == Iterated(v);
      if HasPriorities(v) {
        forall i | 0 <= i < |pairs| ensures pairs[i].key != "" {
          assert IsText(keys[i]);
        }
      }
    case JList(items) =>
      assert Iterated(v) == items;
      assert forall i :: 0 <= i < |items| ==> (IsText(items[i]) <==> IsFilled(items[i]));
    case JNull =>
    case JBool(_) =>
    case JNum(_) =>
  }

  ghost predicate RootBroken(root: Row, f: Finding) {
    && f.rule == ProfileSchemaInvalid
    && match f.message
       case SchemaDiffers => Field(root, "schema") != JStr("autospec.security_database.v1")
       case ProfileDiffers => Field(root, "feature_profile") != JStr("security_database")
       case NoSpecPath => !IsFilled(Field(root, "spec_path"))
       case NoPriorities => !Prioritised(Field(root, "priority_order"))
       case NotAList(name) =>
         && name in ["required_sections", "evidence", "facts", "assumptions", "priority_order", "threats",
                     "blocking_prerequisites", "controls", "negative_tests", "residual_risks", "atomic_groups", "issues"]
         && !Field(root, name).JList?
       case _ => false
  }

  lemma RootIff(root: Row, f: Finding)
    requires !RootRaises(root)
    ensures RootBroken(root, f) <==> f.rule == RuleOf(f.message) && RootDefect(root, f.message)
  {
    PrioritisedIff(Field(root, "priority_order"));
  }

  // ----- issues -----

  ghost predicate IssueListsBroken(key: string, row: Row, f: Finding) {
    && f.rule == ProfileSchemaInvalid
    && match f.message
       case NotStrings(kind, id, field) =>
         && kind == "issue" && id == key && !AreFilled(Field(row, field))
         && field in ["evidence", "produces", "consumes", "prerequisites", "controls",
                      "negative_tests", "covers", "depends_on", "labels", "atomic_groups"]
       case NothingProduced(id) => id == key && forall x :: !ListsText(row, "produces", x)
       case NothingConsumed(id) => id == key && forall x :: !ListsText(row, "consumes", x)
       case _ => false
  }

  lemma IssueListsIff(key: string, row: Row, f: Finding)
    ensures IssueListsBroken(key, row, f) <==> f.rule == RuleOf(f.message) && ListDefect(Entry(key, row), f.message)
  {
    match f.message
    case NotStrings(_, _, field) => ListsTextIff(row, field, "");
    case NothingProduced(_) => ListsNothingIff(row, "produces");
    case NothingConsumed(_) => ListsNothingIff(row, "consumes");
    case _ =>
  }

  ghost predicate EvidenceUseBroken(root: Row, key: string, row: Row, f: Finding) {
    match f.message
    case UnknownEvidence(issue, x) =>
      f.rule == ProfileSchemaInvalid && issue == key && ListsText(row, "evidence", x) && !IsKey(root, "evidence", "id", x)
    case UnverifiedEvidence(issue, x) =>
      && f.rule == Rule.EvidenceUnresolved && issue == key && ListsText(row, "evidence", x)
      && exists e :: IsEntry(root, "evidence", "id", x, e) && Field(e, "status") != JStr("verified")
    case _ => false
  }

  lemma EvidenceUseIff(root: Row, t: Tables, key: string, row: Row, f: Finding)
    requires t == TablesOf(root)
    ensures EvidenceUseBroken(root, key, row, f)
       <==> f.rule == RuleOf(f.message) && EvidenceUse(t, Entry(key, row), f.message)
  {
    match f.message
    case UnknownEvidence(_, x) =>
      ListsTextIff(row, "evidence", x);
      KeyIff(root, "evidence", "id", x);
    case UnverifiedEvidence(_, x) =>
      ListsTextIff(row, "evidence", x);
      RowsAre(root, "evidence", "id", t.evidence, x);
    case _ =>
  }

  ghost predicate PrerequisiteUseBroken(root: Row, key: string, row: Row, f: Finding) {
    match f.message
    case UnknownPrerequisite(issue, p) =>
      && f.rule == ProfileSchemaInvalid && issue == key && ListsText(row, "prerequisites", p)
      && !IsKey(root, "blocking_prerequisites", "id", p)
    case NotGated(issue, p) =>
      && f.rule == ProfileSchemaInvalid && issue == key && ListsText(row, "prerequisites", p)
      && exists e :: IsEntry(root, "blocking_prerequisites", "id", p, e)
                     && CanMention(ListField(e, "gates")) && !Mentions(ListField(e, "gates"), key)
    case Queued(issue, p) =>
      && f.rule == BlockingPrerequisiteQueued && issue == key && ListsText(row, "prerequisites", p)
      && (exists e :: IsEntry(root, "blocking_prerequisites", "id", p, e) && Field(e, "status") != JStr("verified"))
      && !(ListsText(row, "labels", "autospec:blocked-prerequisite") && !ListsText(row, "labels", "auto-implement"))
    case _ => false
  }

  predicate NamesPrerequisite(m: Message) {
    m.UnknownPrerequisite? || m.NotGated? || m.Queued?
  }

  lemma {:induction false} UseIs(t: Tables, e: Entry, xs: seq<string>, n: nat, m: Message)
    requires n <= |xs|
    ensures PrerequisiteUse(t, e, xs, n, m)
       <==> NamesPrerequisite(m) && InFirst(xs, n, m.prerequisite) && PrerequisiteMisuse(t, e, m.prerequisite, m)
  {
    if n > 0 {
      UseIs(t, e, xs, n - 1, m);
    }
  }

  lemma MisuseIff(root: Row, t: Tables, key: string, row: Row, p: string, f: Finding)
    requires t == TablesOf(root) && NamesPrerequisite(f.message) && f.message.prerequisite == p
    ensures PrerequisiteUseBroken(root, key, row, f)
       <==> f.rule == RuleOf(f.message) && ListsText(row, "prerequisites", p)
            && PrerequisiteMisuse(t, Entry(key, row), p, f.message)
  {
    RowsAre(root, "blocking_prerequisites", "id", t.prerequisites, p);
    match f.message
    case NotGated(_, _) =>
      if Known(t.prerequisites, p) {
        MentionsIff(Gates(t, p), key);
      }
    case Queued(_, _) =>
      ListsTextIff(row, "labels", "autospec:blocked-prerequisite");
      ListsTextIff(row, "labels", "auto-implement");
    case _ =>
  }

  lemma PrerequisiteUseIff(root: Row, t: Tables, key: string, row: Row, xs: seq<string>, f: Finding)
    requires t == TablesOf(root) && xs == Strings(row, "prerequisites")
    ensures PrerequisiteUseBroken(root, key, row, f)
       <==> f.rule == RuleOf(f.message) && PrerequisiteUse(t, Entry(key, row), xs, |xs|, f.message)
  {
    UseIs(t, Entry(key, row), xs, |xs|, f.message);
    if NamesPrerequisite(f.message) {
      InFirstAll(xs);
      ListsTextIff(row, "prerequisites", f.message.prerequisite);
      MisuseIff(root, t, key, row, f.message.prerequisite, f);
    }
  }

  ghost predicate ReferenceBroken(root: Row, key: string, row: Row, f: Finding) {
    match f.message
    case UnknownControl(issue, x) =>
      f.rule == ProfileSchemaInvalid && issue == key && ListsText(row, "controls", x) && !IsKey(root, "controls", "id", x)
    case UnknownIssueTest(issue, x) =>
      && f.rule == ProfileSchemaInvalid && issue == key && ListsText(row, "negative_tests", x)
      && !IsKey(root, "negative_tests", "id", x)
    case UnknownDependency(issue, x) =>
      f.rule == DependencyUnknown && issue == key && ListsText(row, "depends_on", x) && !IsKey(root, "issues", "key", x)
    case UnknownGroup(issue, x) =>
      && f.rule == ProfileSchemaInvalid && issue == key && ListsText(row, "atomic_groups", x)
      && !IsKey(root, "atomic_groups", "id", x)
    case _ => false
  }

  lemma ReferenceIff(root: Row, t: Tables, key: string, row: Row, f: Finding)
    requires t == TablesOf(root)
    ensures ReferenceBroken(root, key, row, f) <==> f.rule == RuleOf(f.message) && ReferenceUse(t, Entry(key, row), f.message)
  {
    match f.message
    case UnknownControl(_, x) =>
      ListsTextIff(row, "controls", x);
      KeyIff(root, "controls", "id", x);
    case UnknownIssueTest(_, x) =>
      ListsTextIff(row, "negative_tests", x);
      KeyIff(root, "negative_tests", "id", x);
    case UnknownDependency(_, x) =>
      ListsTextIff(row, "depends_on", x);
      KeyIff(root, "issues", "key", x);
    case UnknownGroup(_, x) =>
      ListsTextIff(row, "atomic_groups", x);
      KeyIff(root, "atomic_groups", "id", x);
    case _ =>
  }

  ghost predicate IssueBroken(root: Row, key: string, row: Row, f: Finding) {
    || IssueListsBroken(key, row, f)
    || EvidenceUseBroken(root, key, row, f)
    || PrerequisiteUseBroken(root, key, row, f)
    || ReferenceBroken(root, key, row, f)
  }

  lemma IssueIff(root: Row, t: Tables, key: string, row: Row, f: Finding)
    requires t == TablesOf(root)
    ensures IssueBroken(root, key, row, f) <==> f.rule == RuleOf(f.message) && IssueDefect(t, Entry(key, row), f.message)
  {
    IssueListsIff(key, row, f);
    EvidenceUseIff(root, t, key, row, f);
    PrerequisiteUseIff(root, t, key, row, Strings(row, "prerequisites"), f);
    ReferenceIff(root, t, key, row, f);
  }

  // ----- ownership -----

  /** Issue `key` lists `x` in `field`. */
  ghost predicate IssueLists(root: Row, field: string, x: string, key: string) {
    exists row :: IsEntry(root, "issues", "key", key, row) && ListsText(row, field, x)
  }

  predicate ListsIt(e: Entry, field: string, x: string, key: string) {
    e.key == key && x in Strings(e.row, field)
  }

  ghost predicate OneLists(issues: seq<Entry>, field: string, x: string, n: nat, key: string)
    requires n <= |issues|
  {
    exists i :: 0 <= i < n && ListsIt(issues[i], field, x, key)
  }

  lemma OneMoreLists(issues: seq<Entry>, field: string, x: string, n: nat, key: string)
    requires 0 < n <= |issues|
    ensures OneLists(issues, field, x, n, key) <==> OneLists(issues, field, x, n - 1, key) || ListsIt(issues[n - 1], field, x, key)
  {
  }

  lemma ListingStep(issues: seq<Entry>, field: string, x: string, n: nat, key: string)
    requires 0 < n <= |issues|
    ensures key in Listing(issues, field, x, n) <==> key in Listing(issues, field, x, n - 1) || ListsIt(issues[n - 1], field, x, key)
  {
  }

  lemma {:induction false} ListingIs(issues: seq<Entry>, field: string, x: string, n: nat, key: string)
    requires n <= |issues|
    ensures key in Listing(issues, field, x, n) <==> OneLists(issues, field, x, n, key)
  {
    if n > 0 {
      ListingIs(issues, field, x, n - 1, key);
      ListingStep(issues, field, x, n, key);
      OneMoreLists(issues, field, x, n, key);
    }
  }

  lemma ClaimantIff(root: Row, t: Tables, field: string, x: string, key: string)
    requires t == TablesOf(root)
    ensures key in Claimants(t, field, x) <==> IssueLists(root, field, x, key)
  {
    ListingIs(t.issues, field, x, |t.issues|, key);
    if i :| 0 <= i < |t.issues| && ListsIt(t.issues[i], field, x, key) {
      EntryAt(root, "issues", "key", t.issues, i);
      ListsTextIff(t.issues[i].row, field, x);
    }
    if row :| IsEntry(root, "issues", "key", key, row) && ListsText(row, field, x) {
      var i := PlaceOf(root, "issues", "key", t.issues, key, row);
      ListsTextIff(row, field, x);
      assert ListsIt(t.issues[i], field, x, key);
    }
  }

  lemma UnclaimedIff(root: Row, t: Tables, field: string, x: string)
    requires t == TablesOf(root)
    ensures Claimants(t, field, x) == {} <==> forall key :: !IssueLists(root, field, x, key)
  {
    forall key ensures key in Claimants(t, field, x) <==> IssueLists(root, field, x, key) {
      ClaimantIff(root, t, field, x, key);
    }
    if Claimants(t, field, x) != {} {
      var key :| key in Claimants(t, field, x);
      assert IssueLists(root, field, x, key);
    }
  }

  /** A string among the required sections; a single character of a string, a key of a mapping. */
  ghost predicate IsRequired(v: Json, x: string) {
    match v
    case JList(items) => JStr(x) in items
    case JStr(text) => exists i :: 0 <= i < |text| && [text[i]] == x
    case JMap(pairs) => exists i :: 0 <= i < |pairs| && pairs[i].key == x
    case _ => false
  }

  lemma {:induction false} SectionsAre(values: seq<Json>, n: nat, x: string)
    requires n <= |values|
    ensures x in Sections(values, n) <==> exists i :: 0 <= i < n && values[i] == JStr(x)
  {
    if n > 0 {
      SectionsAre(values, n - 1, x);
    }
  }

  lemma RequiredIff(root: Row, x: string)
    requires !RootRaises(root)
    ensures x in SectionsOf(root) <==> IsRequired(ListField(root, "required_sections"), x)
  {
    var v := ListField(root, "required_sections");
    var values := Iterated(v);
    SectionsAre(values, |values|, x);
    match v
    case JStr(text) =>
      CharactersAre(text, |text|);
      if i :| 0 <= i < |text| && [text[i]] == x {
        assert values[i] == JStr(x);
      }
    case JMap(pairs) =>
      KeysAre(pairs, |pairs|);
      if i :| 0 <= i < |pairs| && pairs[i].key == x {
        assert values[i] == JStr(x);
      }
    case _ =>
  }

  ghost predicate OwnershipBroken(root: Row, f: Finding) {
    match f.message
    case Uncovered(x) =>
      && f.rule == SpecSectionUncovered && IsRequired(ListField(root, "required_sections"), x)
      && forall key :: !IssueLists(root, "covers", x, key)
    case UnownedTest(x) =>
      && f.rule == NegativeTestUnowned && IsKey(root, "negative_tests", "id", x)
      && forall key :: !IssueLists(root, "negative_tests", x, key)
    case UnownedControl(x) =>
      && f.rule == Rule.ControlUnowned && IsKey(root, "controls", "id", x)
      && forall key :: !IssueLists(root, "controls", x, key)
    case _ => false
  }

  lemma OwnershipIff(root: Row, t: Tables, sections: seq<string>, f: Finding)
    requires !RootRaises(root) && t == TablesOf(root) && sections == SectionsOf(root)
    ensures OwnershipBroken(root, f) <==> f.rule == RuleOf(f.message) && OwnershipDefect(t, sections, f.message)
  {
    match f.message
    case Uncovered(x) =>
      RequiredIff(root, x);
      UnclaimedIff(root, t, "covers", x);
    case UnownedTest(x) =>
      KeyIff(root, "negative_tests", "id", x);
      UnclaimedIff(root, t, "negative_tests", x);
    case UnownedControl(x) =>
      KeyIff(root, "controls", "id", x);
      UnclaimedIff(root, t, "controls", x);
    case _ =>
  }

  // ----- gates -----

  ghost predicate GateBroken(root: Row, id: string, row: Row, f: Finding) {
    match f.message
    case NotStrings(kind, other, field) =>
      && f.rule == ProfileSchemaInvalid && kind == "prerequisite" && other == id && field == "gates"
      && !AreFilled(Field(row, "gates"))
    case NoGates(other) => f.rule == ProfileSchemaInvalid && other == id && forall x :: !ListsText(row, "gates", x)
    case UnknownGated(other, issue) =>
      f.rule == ProfileSchemaInvalid && other == id && ListsText(row, "gates", issue) && !IsKey(root, "issues", "key", issue)
    case NoReverse(other, issue) =>
      && f.rule == ProfileSchemaInvalid && other == id && ListsText(row, "gates", issue)
      && exists e :: IsEntry(root, "issues", "key", issue, e)
                     && CanMention(ListField(e, "prerequisites")) && !Mentions(ListField(e, "prerequisites"), id)
    case Queued(issue, other) =>
      && f.rule == BlockingPrerequisiteQueued && other == id && ListsText(row, "gates", issue)
      && Field(row, "status") == JStr("blocking")
      && exists e :: IsEntry(root, "issues", "key", issue, e) && CanMention(ListField(e, "labels"))
                     && !(Mentions(ListField(e, "labels"), "autospec:blocked-prerequisite")
                          && !Mentions(ListField(e, "labels"), "auto-implement"))
    case _ => false
  }

  predicate NamesGated(m: Message) {
    m.UnknownGated? || m.NoReverse? || m.Queued?
  }

  lemma {:induction false} GatesAre(t: Tables, e: Entry, gates: seq<string>, n: nat, m: Message)
    requires n <= |gates|
    ensures GatesDefect(t, e, gates, n, m) <==> NamesGated(m) && InFirst(gates, n, m.issue) && GateDefect(t, e, m.issue, m)
  {
    if n > 0 {
      GatesAre(t, e, gates, n - 1, m);
    }
  }

  lemma GatedIff(root: Row, t: Tables, id: string, row: Row, issue: string, f: Finding)
    requires t == TablesOf(root) && NamesGated(f.message) && f.message.issue == issue
    ensures GateBroken(root, id, row, f)
       <==> f.rule == RuleOf(f.message) && ListsText(row, "gates", issue) && GateDefect(t, Entry(id, row), issue, f.message)
  {
    RowsAre(root, "issues", "key", t.issues, issue);
    match f.message
    case NoReverse(_, _) =>
      if Known(t.issues, issue) {
        MentionsIff(Back(t, issue), id);
      }
    case Queued(_, _) =>
      if Known(t.issues, issue) {
        MentionsIff(Labels(t, issue), "autospec:blocked-prerequisite");
        MentionsIff(Labels(t, issue), "auto-implement");
      }
    case _ =>
  }

  lemma GateListIff(root: Row, id: string, row: Row, f: Finding)
    requires !NamesGated(f.message)
    ensures GateBroken(root, id, row, f) <==> f.rule == RuleOf(f.message) && GateListDefect(Entry(id, row), f.message)
  {
    ListsNothingIff(row, "gates");
    ListsTextIff(row, "gates", "");
  }

  lemma GateIff(root: Row, t: Tables, id: string, row: Row, f: Finding)
    requires t == TablesOf(root)
    ensures GateBroken(root, id, row, f) <==> f.rule == RuleOf(f.message) && EntryGatesDefect(t, Entry(id, row), f.message)
  {
    var gates := Strings(row, "gates");
    GatesAre(t, Entry(id, row), gates, |gates|, f.message);
    if NamesGated(f.message) {
      InFirstAll(gates);
      ListsTextIff(row, "gates", f.message.issue);
      GatedIff(root, t, id, row, f.message.issue, f);
    } else {
      GateListIff(root, id, row, f);
    }
  }

  // ----- atomic groups -----

  /** Issue `key` produces a member of the group. */
  ghost predicate Produces(root: Row, row: Row, key: string) {
    exists x :: ListsText(row, "members", x) && IssueLists(root, "produces", x, key)
  }

  /** The issues that produce members are those that declare the group, and they are one at most. */
  ghost predicate IsWhole(root: Row, id: string, row: Row) {
    && (forall key :: Produces(root, row, key) <==> IssueLists(root, "atomic_groups", id, key))
    && (forall i, j :: Produces(root, row, i) && Produces(root, row, j) ==> i == j)
  }

  ghost predicate AreOwners(root: Row, id: string, row: Row, all: set<string>) {
    forall key :: key in all <==> Produces(root, row, key) || IssueLists(root, "atomic_groups", id, key)
  }

  ghost predicate GroupBroken(root: Row, id: string, row: Row, f: Finding) {
    match f.message
    case NotStrings(kind, other, field) =>
      && f.rule == ProfileSchemaInvalid && kind == "atomic group" && other == id && field == "members"
      && !AreFilled(Field(row, "members"))
    case UnownedMember(other, x) =>
      && f.rule == AtomicContractUnowned && other == id && ListsText(row, "members", x)
      && forall key :: !IssueLists(root, "produces", x, key)
    case GroupSplit(other, owners) =>
      && f.rule == AtomicContractSplit && other == id && !IsWhole(root, id, row)
      && AreOwners(root, id, row, owners)
    case _ => false
  }

  lemma MemberIff(root: Row, t: Tables, id: string, row: Row, f: Finding)
    requires t == TablesOf(root) && !f.message.GroupSplit?
    ensures GroupBroken(root, id, row, f) <==> f.rule == RuleOf(f.message) && MemberDefect(t, Entry(id, row), f.message)
  {
    match f.message
    case NotStrings(_, _, _) => ListsTextIff(row, "members", "");
    case UnownedMember(_, x) =>
      ListsTextIff(row, "members", x);
      UnclaimedIff(root, t, "produces", x);
    case _ =>
  }

  lemma {:induction false} ProducersAre(t: Tables, members: seq<string>, n: nat, key: string)
    requires n <= |members|
    ensures key in Producers(t, members, n) <==> exists i :: 0 <= i < n && key in Claimants(t, "produces", members[i])
  {
    if n > 0 {
      ProducersAre(t, members, n - 1, key);
    }
  }

  lemma OwnersIff(root: Row, t: Tables, id: string, row: Row, members: seq<string>, key: string)
    requires t == TablesOf(root) && members == Strings(row, "members")
    ensures key in Producers(t, members, |members|) <==> Produces(root, row, key)
  {
    ProducersAre(t, members, |members|, key);
    if i :| 0 <= i < |members| && key in Claimants(t, "produces", members[i]) {
      ListsTextIff(row, "members", members[i]);
      ClaimantIff(root, t, "produces", members[i], key);
    }
    if x :| ListsText(row, "members", x) && IssueLists(root, "produces", x, key) {
      ListsTextIff(row, "members", x);
      ClaimantIff(root, t, "produces", x, key);
      var i :| 0 <= i < |members| && members[i] == x;
    }
  }

  lemma AtMostOne(s: set<string>)
    ensures |s| <= 1 <==> forall i, j :: i in s && j in s ==> i == j
  {
    if |s| <= 1 {
      forall i, j | i in s && j in s ensures i == j {
        CardinalityGrows({i, j}, s);
        assert i != j ==> |{i, j}| == 2;
      }
    } else {
      var i :| i in s;
      assert s != {i};
      var j :| j in s && j != i;
    }
  }

  ghost predicate AreProducers(root: Row, row: Row, owners: set<string>) {
    forall key :: key in owners <==> Produces(root, row, key)
  }

  ghost predicate AreDeclaring(root: Row, id: string, declared: set<string>) {
    forall key :: key in declared <==> IssueLists(root, "atomic_groups", id, key)
  }

  lemma WholeIff(root: Row, id: string, row: Row, owners: set<string>, declared: set<string>)
    requires AreProducers(root, row, owners) && AreDeclaring(root, id, declared)
    ensures IsSplit(owners, declared) <==> !IsWhole(root, id, row)
  {
    AtMostOne(owners);
    if IsWhole(root, id, row) {
      assert forall key :: key in owners <==> key in declared;
      assert owners == declared;
    } else if owners == declared && |owners| <= 1 {
      assert forall key :: Produces(root, row, key) <==> IssueLists(root, "atomic_groups", id, key);
    }
  }

  lemma UnionIff(root: Row, id: string, row: Row, owners: set<string>, declared: set<string>, all: set<string>)
    requires AreProducers(root, row, owners) && AreDeclaring(root, id, declared)
    ensures all == owners + declared <==> AreOwners(root, id, row, all)
  {
    if AreOwners(root, id, row, all) {
      assert forall key :: key in all <==> key in owners + declared;
    }
  }

  lemma SplitIff(root: Row, id: string, row: Row, owners: set<string>, declared: set<string>, f: Finding)
    requires f.message.GroupSplit?
    requires IsSplit(owners, declared) <==> !IsWhole(root, id, row)
    requires f.message.owners == owners + declared <==> AreOwners(root, id, row, f.message.owners)
    ensures GroupBroken(root, id, row, f)
       <==> f.rule == RuleOf(f.message) && SplitDefect(Entry(id, row), owners, declared, f.message)
  {
  }

  lemma GroupIff(root: Row, t: Tables, id: string, row: Row, f: Finding)
    requires t == TablesOf(root)
    ensures GroupBroken(root, id, row, f) <==> f.rule == RuleOf(f.message) && GroupDefect(t, Entry(id, row), f.message)
  {
    var owners, declared := MemberOwners(t, Entry(id, row)), Claimants(t, "atomic_groups", id);
    if f.message.GroupSplit? {
      forall key ensures key in owners <==> Produces(root, row, key) {
        OwnersIff(root, t, id, row, Strings(row, "members"), key);
      }
      forall key ensures key in declared <==> IssueLists(root, "atomic_groups", id, key) {
        ClaimantIff(root, t, "atomic_groups", id, key);
      }
      WholeIff(root, id, row, owners, declared);
      UnionIff(root, id, row, owners, declared, f.message.owners);
      SplitIff(root, id, row, owners, declared, f);
    } else {
      MemberIff(root, t, id, row, f);
    }
  }
}
