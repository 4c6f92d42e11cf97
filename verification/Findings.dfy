/** Findings of the artifact validator, and the parsed documents they are about. */
module Findings {
  datatype Pair = Pair(key: string, value: Json)

  datatype Json =
    | JNull
    | JBool(flag: bool)
    | JNum(number: real)
    | JStr(text: string)
    | JList(items: seq<Json>)
    | JMap(pairs: seq<Pair>)

  datatype Rule =
    | ProfileSchemaInvalid | ControlWithoutTest | AuthoritativeControlMissing | ThreatWithoutControl
    | EvidenceUnresolved | BlockingPrerequisiteQueued | DependencyUnknown | SpecSectionUncovered
    | NegativeTestUnowned | ControlUnowned | AtomicContractUnowned | AtomicContractSplit | DependencyCycle

  /** A message, as its template and what is filled in. */
  datatype Message =
    | RootNotMapping | SchemaDiffers | ProfileDiffers | NoSpecPath | NoPriorities
    | NotAList(name: string) | NotAMapping(name: string, index: nat)
    | BadKey(name: string, index: nat) | DuplicateKey(name: string, id: string)
    | NotStrings(kind: string, id: string, field: string)
    | EvidenceStatus(id: string) | EvidenceSource(id: string)
    | PrerequisiteStatus(id: string) | PrerequisiteEvidence(id: string, reference: Json)
    | NoTest(control: string) | UnknownTest(control: string, test: string) | NotAuthoritative(control: string)
    | Uncontrolled(threat: string) | UnknownThreat(control: string, reference: Json)
    | RiskNotAccepted(index: nat)
    | NothingProduced(issue: string) | NothingConsumed(issue: string)
    | UnknownEvidence(issue: string, evidence: string) | UnverifiedEvidence(issue: string, evidence: string)
    | UnknownPrerequisite(issue: string, prerequisite: string)
    | NotGated(issue: string, prerequisite: string) | Queued(issue: string, prerequisite: string)
    | UnknownControl(issue: string, control: string) | UnknownIssueTest(issue: string, test: string)
    | UnknownDependency(issue: string, dependency: string) | UnknownGroup(issue: string, group: string)
    | Uncovered(section: string) | UnownedTest(test: string) | UnownedControl(control: string)
    | NoGates(prerequisite: string) | UnknownGated(prerequisite: string, issue: string)
    | NoReverse(prerequisite: string, issue: string)
    | UnownedMember(group: string, member: string) | GroupSplit(group: string, owners: set<string>)
    | Cycle(path: seq<string>)

  /** The rule each message is reported under. */
  function RuleOf(m: Message): Rule {
    match m
    case NoTest(_) => ControlWithoutTest
    case NotAuthoritative(_) => AuthoritativeControlMissing
    case Uncontrolled(_) => ThreatWithoutControl
    case UnverifiedEvidence(_, _) => Rule.EvidenceUnresolved
    case Queued(_, _) => BlockingPrerequisiteQueued
    case UnknownDependency(_, _) => DependencyUnknown
    case Uncovered(_) => SpecSectionUncovered
    case UnownedTest(_) => NegativeTestUnowned
    case UnownedControl(_) => ControlUnowned
    case UnownedMember(_, _) => AtomicContractUnowned
    case GroupSplit(_, _) => AtomicContractSplit
    case Cycle(_) => DependencyCycle
    case _ => ProfileSchemaInvalid
  }

  datatype Finding = Finding(rule: Rule, message: Message)

  class Findings {
    var items: seq<Finding>
    ghost var all: set<Message>

    ghost predicate Valid()
      reads this
    {
      && (forall f :: f in items <==> f.message in all && f.rule == RuleOf(f.message))
      && (forall i, j :: 0 <= i < j < |items| ==> items[i] != items[j])
    }

    constructor ()
      ensures Valid() && items == [] && all == {}
    {
      items, all := [], {};
    }

    /** Records a finding once; what is recorded stays first. */
    method Add(message: Message)
      requires Valid()
      modifies this
      ensures Valid() && all == old(all) + {message} && old(items) <= items
    {
      var item := Finding(RuleOf(message), message);
      if item !in items {
        items := items + [item];
        all := all + {message};
      }
    }
  }
}
