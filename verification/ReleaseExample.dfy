/** A request that every layer accepts: the guarantees about accepted requests are about something. */
module ReleaseExample {
  import opened Wrappers
  import opened ReleaseRecords
  import opened ReleaseLayers

  function Rule(n: int): Invariant {
    Invariant(InvariantName(n), true, true, Some(R3), ["T"])
  }

  function Rules(): seq<Invariant> {
    seq(12, k requires 0 <= k < 12 => Rule(k + 1))
  }

  function Boundary(): Contract { Contract("C", true, Some(R3), Some(["T"])) }

  function TheGate(): Gate { Gate("G", true, true, ["C"], None, ["Q"], map["Q" := Implementation]) }

  function Policy(): map<string, ClassPolicy> {
    map["build" := ClassPolicy(None, ["T"]), "audit" := ClassPolicy(None, ["T"])]
  }

  /** A current record in one role, bound to the gate and to every invariant. */
  function RecordOf(head: string, fingerprint: string, id: string, role: Role): Evidence {
    Evidence(id, if role.Implementation? then "build" else "audit", Verified, head, "site", false, fingerprint,
             Some(Provenance(id, id, id)), Some(0.0), map["T" := "1"],
             {role}, {"G"}, REQUIRED_INVARIANTS, map["G" := ["Q"]])
  }

  function Records(head: string, fingerprint: string): seq<Evidence> {
    [RecordOf(head, fingerprint, "m", Implementation), RecordOf(head, fingerprint, "k", Countercheck),
     RecordOf(head, fingerprint, "n", Negative), RecordOf(head, fingerprint, "r", Recovery)]
  }

  function Bindings(head: string): seq<Binding> {
    [Binding("m", head, "site"), Binding("k", head, "site"), Binding("n", head, "site"), Binding("r", head, "site")]
  }

  function Selection(): map<Role, string> {
    map[Implementation := "m", Countercheck := "k", Negative := "n", Recovery := "r"]
  }

  function Request(head: string, fingerprint: string): Inputs {
    Inputs(
      Rules(), [TheGate()], [Boundary()], [Mapping("C", ["G"])], Policy(),
      Snapshot(["C"], Some(R3), head, "site", Bindings(head), Selection(), true, false),
      head, "site", fingerprint, Some(false), 0.0,
      Some(Attestation(Records(head, fingerprint), map["T" := "1"], true)),
        Some(TriggerDocument(map["T" := "1"], true)))
  }

  // ----- the twelve invariants -----

  lemma DigitsDiffer(i: int, j: int)
    requires 0 <= i < j <= 9
    ensures Digit(i)[0] != Digit(j)[0]
  {
  }

  lemma NamesDiffer(i: int, j: int)
    requires 1 <= i < j <= 12
    ensures InvariantName(i) != InvariantName(j)
  {
    if i / 10 == j / 10 {
      DigitsDiffer(i % 10, j % 10);
    } else {
      DigitsDiffer(i / 10, j / 10);
    }
    assert InvariantName(i)[8] == Digit(i / 10)[0] && InvariantName(i)[9] == Digit(i % 10)[0];
    assert InvariantName(j)[8] == Digit(j / 10)[0] && InvariantName(j)[9] == Digit(j % 10)[0];
  }

  lemma {:induction false} OnceEach<T>(items: seq<T>)
    requires forall i, j :: 0 <= i < j < |items| ==> items[i] != items[j]
    ensures forall item <- items :: multiset(items)[item] == 1
  {
    if items != [] {
      OnceEach(items[1..]);
      assert items == [items[0]] + items[1..];
      assert items[0] !in items[1..];
    }
  }

  lemma DistinctAreUnique<T(!new)>(items: seq<T>, idOf: T -> string)
    requires forall i :: 0 <= i < |items| ==> idOf(items[i]) != ""
    requires forall i, j :: 0 <= i < j < |items| ==> idOf(items[i]) != idOf(items[j])
    ensures UniqueRegistry(items, idOf)
  {
    OnceEach(items);
    forall left, right | left in items && right in items && idOf(left) == idOf(right) ensures left == right {
      var i, j :| 0 <= i < |items| && 0 <= j < |items| && items[i] == left && items[j] == right;
      assert i == j;
    }
  }

  lemma RulesAreUnique()
    ensures UniqueRegistry(Rules(), InvariantId)
  {
    forall i, j | 0 <= i < j < 12 ensures InvariantId(Rules()[i]) != InvariantId(Rules()[j]) {
      NamesDiffer(i + 1, j + 1);
    }
    DistinctAreUnique(Rules(), InvariantId);
  }

  lemma RulesAreTheRequiredOnes(rules: seq<Invariant>)
    requires |rules| == 12 && forall k :: 0 <= k < 12 ==> rules[k] == Rule(k + 1)
    ensures (set rule <- AsSet(rules) :: rule.id) == REQUIRED_INVARIANTS
  {
    forall rule | rule in rules ensures rule.id in REQUIRED_INVARIANTS {
      var k :| 0 <= k < 12 && rules[k] == rule;
      assert 1 <= k + 1 <= 12 && rule.id == InvariantName(k + 1);
    }
    forall id | id in REQUIRED_INVARIANTS ensures exists rule <- AsSet(rules) :: rule.id == id {
      var n :| 1 <= n <= 12 && id == InvariantName(n);
      assert rules[n - 1].id == id && rules[n - 1] in AsSet(rules);
    }
  }

  // ----- every layer accepts -----

  lemma RecordsAreUnique(head: string, fingerprint: string)
    ensures UniqueRegistry(Records(head, fingerprint), EvidenceId)
  {
    DistinctAreUnique(Records(head, fingerprint), EvidenceId);
  }

  lemma BindingsAreUnique(head: string)
    ensures UniqueRegistry(Bindings(head), BindingId)
  {
  }

  lemma SinglesAreUnique()
    ensures UniqueRegistry([TheGate()], GateId) && UniqueRegistry([Boundary()], ContractId)
    ensures UniqueRegistry([Mapping("C", ["G"])], MappingId) && UniqueRegistry(["C"], SelfId)
  {
  }

  lemma RequestIsUnambiguous(head: string, fingerprint: string)
    ensures Unambiguous(Request(head, fingerprint))
  {
    RulesAreUnique();
    RecordsAreUnique(head, fingerprint);
    BindingsAreUnique(head);
    SinglesAreUnique();
  }

  /** What the request comes down to for the layers. */
  predicate Sample(f: Facts) {
    && RuleIds(f) == REQUIRED_INVARIANTS && (forall rule <- f.invariants :: rule == Rule(1).(id := rule.id))
    && f.gates == {TheGate()} && f.contracts == {Boundary()} && f.mappings == {Mapping("C", ["G"])} &&
    f.affected == {"C"}
    && f.evidence == AsSet(Records(f.head, f.fingerprint)) && f.bindings == AsSet(Bindings(f.head))
    && f.policy == Policy() && f.risk == Some(R3) && f.selected == Selection()
    && f.target == "site" && f.now == 0.0 && f.state == map["T" := "1"]
  }

  lemma RequestIsSample(head: string, fingerprint: string)
    ensures Sample(FactsOf(Request(head, fingerprint)))
  {
    RulesAreTheRequiredOnes(Rules());
  }

  lemma RecordIsCurrent(f: Facts, id: string, role: Role)
    requires Sample(f) && role in RequiredRoles(R3)
    ensures var record, binding := RecordOf(f.head, f.fingerprint, id, role), Binding(id, f.head, "site");
            Sound(f, record, binding) && CurrentForHardening(f, record, binding)
  {
  }

  lemma PairIsCurrent(f: Facts, evidence: Evidence, binding: Binding)
    requires evidence in f.evidence && binding in f.bindings && binding.id == evidence.id
    requires Sound(f, evidence, binding) && CurrentForHardening(f, evidence, binding)
    ensures evidence in BaseCurrent(f) && evidence in LaterCurrent(f)
  {
  }

  lemma RecordsAreCurrent(f: Facts)
    requires Sample(f)
    ensures BaseCurrent(f) == f.evidence && LaterCurrent(f) == f.evidence && BindingsSound(f)
  {
    var records, bindings := Records(f.head, f.fingerprint), Bindings(f.head);
    RecordIsCurrent(f, "m", Implementation);
    RecordIsCurrent(f, "k", Countercheck);
    RecordIsCurrent(f, "n", Negative);
    RecordIsCurrent(f, "r", Recovery);
    AllAreCurrent(f, records, bindings);
  }

  lemma AllAreCurrent(f: Facts, records: seq<Evidence>, bindings: seq<Binding>)
    requires |records| == |bindings| && f.evidence == AsSet(records) && f.bindings == AsSet(bindings)
    requires forall k :: 0 <= k < |records| ==> records[k].id == bindings[k].id
    requires forall k :: 0 <= k < |records| ==>
      Sound(f, records[k], bindings[k]) && CurrentForHardening(f, records[k], bindings[k])
    ensures BaseCurrent(f) == f.evidence && LaterCurrent(f) == f.evidence && BindingsSound(f)
  {
    forall evidence | evidence in f.evidence ensures evidence in BaseCurrent(f) && evidence in LaterCurrent(f) {
      var k :| 0 <= k < |records| && records[k] == evidence;
      PairIsCurrent(f, evidence, bindings[k]);
    }
    forall binding | binding in f.bindings
      ensures exists evidence <- f.evidence :: evidence.id == binding.id && Sound(f, evidence, binding)
    {
      var k :| 0 <= k < |bindings| && bindings[k] == binding;
      assert records[k] in f.evidence;
    }
  }

  // ----- four records in four roles -----

  /** One record for each role, all bound to the gate and to every invariant, and all fresh. */
  predicate Team(f: Facts, m: Evidence, k: Evidence, n: Evidence, r: Evidence) {
    && f.evidence == {m, k, n, r} && f.state == map["T" := "1"]
    && m.roles == {Implementation} && k.roles == {Countercheck} && n.roles == {Negative} && r.roles == {Recovery}
    && SelectedFor(f, Implementation, m) && SelectedFor(f, Countercheck, k) && SelectedFor(f, Negative, n) &&
    SelectedFor(f, Recovery, r)
    && Independent(m, k) && m.class_ != k.class_ && m.class_ != "" && k.class_ != "" && n.id != r.id && n != r
    && (forall evidence <- f.evidence :: evidence.gates == {"G"} && evidence.invariants == REQUIRED_INVARIANTS)
    && (forall evidence <- f.evidence ::
      evidence.fingerprints == map["T" := "1"] && evidence.requirements == map["G" := ["Q"]])
  }

  lemma RecordsAreATeam(f: Facts)
    requires Sample(f)
    ensures Team(f, RecordOf(f.head, f.fingerprint, "m", Implementation),
      RecordOf(f.head, f.fingerprint, "k", Countercheck),
                 RecordOf(f.head, f.fingerprint, "n", Negative), RecordOf(f.head, f.fingerprint, "r", Recovery))
  {
    var m, k := RecordOf(f.head, f.fingerprint, "m", Implementation),
      RecordOf(f.head, f.fingerprint, "k", Countercheck);
    var n, r := RecordOf(f.head, f.fingerprint, "n", Negative), RecordOf(f.head, f.fingerprint, "r", Recovery);
    FourMembers(m, k, n, r);
    SelectionFits(f);
  }

  lemma FourMembers(m: Evidence, k: Evidence, n: Evidence, r: Evidence)
    ensures AsSet([m, k, n, r]) == {m, k, n, r}
  {
  }

  lemma SelectionFits(f: Facts)
    requires f.selected == Selection()
    ensures SelectedFor(f, Implementation, RecordOf(f.head, f.fingerprint, "m", Implementation))
    ensures SelectedFor(f, Countercheck, RecordOf(f.head, f.fingerprint, "k", Countercheck))
    ensures SelectedFor(f, Negative, RecordOf(f.head, f.fingerprint, "n", Negative))
    ensures SelectedFor(f, Recovery, RecordOf(f.head, f.fingerprint, "r", Recovery))
  {
  }

  lemma BothClassesCount(records: set<Evidence>, left: Evidence, right: Evidence)
    requires left in records && right in records && left.class_ != right.class_ && left.class_ != "" &&
      right.class_ != ""
    requires Independent(left, right)
    ensures |Classes(records)| >= 2 && IndependentClassPair(records)
  {
    assert {left.class_, right.class_} <= Classes(records);
    assert |Classes(records) - {left.class_, right.class_}| + |{left.class_, right.class_}| == |Classes(records)|;
  }

  lemma TeamCoversRoles(f: Facts, m: Evidence, k: Evidence, n: Evidence, r: Evidence)
    requires Team(f, m, k, n, r)
    ensures RolesCovered(f, f.evidence, R3) && SelectionIndependent(f, f.evidence, R3)
  {
    assert m in WithRole(f.evidence, Implementation) && k in WithRole(f.evidence, Countercheck);
    assert n in WithRole(f.evidence, Negative) && r in WithRole(f.evidence, Recovery);
    assert m in SelectedRecords(f, f.evidence, Implementation) && k in SelectedRecords(f, f.evidence, Countercheck);
    assert n in SelectedRecords(f, f.evidence, Negative) && r in SelectedRecords(f, f.evidence, Recovery);
  }

  lemma TeamCoversGate(f: Facts, m: Evidence, k: Evidence, n: Evidence, r: Evidence)
    requires Team(f, m, k, n, r)
    ensures GateCovered(f.evidence, TheGate(), R3)
  {
    assert GateRecords(f.evidence, "G", Implementation) == {m} && GateRecords(f.evidence, "G", Countercheck) == {k};
    assert GateRecords(f.evidence, "G", Negative) == {n} && GateRecords(f.evidence, "G", Recovery) == {r};
  }

  lemma TeamCoversRules(f: Facts, m: Evidence, k: Evidence, n: Evidence, r: Evidence)
    requires Team(f, m, k, n, r) && RuleIds(f) == REQUIRED_INVARIANTS
    ensures forall rule <- RuleIds(f) :: RuleCovered(f.evidence, rule, R3)
  {
    assert Implementation in m.roles * RequiredRoles(R3);
  }

  lemma TeamIsAQuorum(f: Facts, m: Evidence, k: Evidence, n: Evidence, r: Evidence, gates: set<Gate>,
                      rules: set<string>)
    requires Team(f, m, k, n, r)
    ensures Quorum(Participants(f, f.evidence, gates, rules, R3), R3)
  {
    assert BaseParticipates(f, m, gates, rules, R3) && BaseParticipates(f, k, gates, rules, R3);
    BothClassesCount(Participants(f, f.evidence, gates, rules, R3), m, k);
  }

  lemma TeamProvesGate(f: Facts, m: Evidence, k: Evidence, n: Evidence, r: Evidence)
    requires Team(f, m, k, n, r)
    ensures GateProven(f.evidence, TheGate(), R3)
  {
    assert m in WithRole(f.evidence, Implementation) && k in WithRole(f.evidence, Countercheck);
    assert n in WithRole(f.evidence, Negative) && r in WithRole(f.evidence, Recovery);
    assert Claims(m, "G", "Q");
  }

  // ----- the layers -----

  lemma EvidenceIsAccepted(f: Facts, m: Evidence, k: Evidence, n: Evidence, r: Evidence)
    requires Team(f, m, k, n, r) && RuleIds(f) == REQUIRED_INVARIANTS
    ensures EvidenceAccepted(f, f.evidence, {TheGate()}, RuleIds(f), R3)
  {
    TeamCoversRoles(f, m, k, n, r);
    TeamCoversGate(f, m, k, n, r);
    TeamCoversRules(f, m, k, n, r);
    TeamIsAQuorum(f, m, k, n, r, {TheGate()}, RuleIds(f));
  }

  lemma BaseIsContent(f: Facts, m: Evidence, k: Evidence, n: Evidence, r: Evidence)
    requires Sample(f) && Team(f, m, k, n, r)
    ensures BaseAccepts(f)
  {
    RequestFitsTheRegistries(f);
    RecordsAreCurrent(f);
    EvidenceIsAccepted(f, m, k, n, r);
  }

  lemma RequestFitsTheRegistries(f: Facts)
    requires Sample(f)
    ensures InvariantsEnforced(f) && ContractsInScope(f) && ImpactMapped(f) && GatesVerified(f) && RiskAboveContracts(f)
    ensures MandatoryGates(f) == {TheGate()}
  {
  }

  lemma RiskIsR3(f: Facts)
    requires Sample(f)
    ensures LaterRisk(f) == R3 && RiskAboveInvariants(f)
  {
  }

  lemma GatesAreProven(f: Facts, m: Evidence, k: Evidence, n: Evidence, r: Evidence)
    requires Sample(f) && Team(f, m, k, n, r) && LaterCurrent(f) == f.evidence
    ensures GatesProven(f, R3)
  {
    EveryoneIsRevalidated(f);
    assert Revalidated(f, TheGate()) == f.evidence;
    TeamProvesGate(f, m, k, n, r);
  }

  lemma HardeningIsContent(f: Facts, m: Evidence, k: Evidence, n: Evidence, r: Evidence)
    requires Sample(f) && Team(f, m, k, n, r) && LaterCurrent(f) == f.evidence
    ensures HardeningAccepts(f)
  {
    RiskIsR3(f);
    MapsFit(f);
    RulesHold(f, m, k, n, r);
    GatesAreProven(f, m, k, n, r);
  }

  lemma MapsFit(f: Facts)
    requires Sample(f)
    ensures ContractTriggersConfigured(f) && GateContractsConfigured(f) && MapsAgree(f)
    ensures HardMandatory(f) == {"G"}
  {
  }

  lemma RuleHolds(f: Facts, m: Evidence, rule: Invariant)
    requires m in f.evidence && m.roles == {Implementation} && rule.id in m.invariants && rule.triggers == ["T"] &&
      rule.risk.Some?
    requires m.fingerprints == map["T" := "1"] && f.state == map["T" := "1"]
    ensures RuleConfigured(rule) && RuleRevalidated(f, f.evidence, rule, R3)
  {
    assert Implementation in m.roles * RequiredRoles(R3);
    assert MatchesTriggers(m, rule.triggers, f.state);
  }

  lemma RulesHold(f: Facts, m: Evidence, k: Evidence, n: Evidence, r: Evidence)
    requires Sample(f) && Team(f, m, k, n, r)
    ensures RulesRevalidated(f, f.evidence, R3)
  {
    forall rule | rule in f.invariants ensures RuleConfigured(rule) && RuleRevalidated(f, f.evidence, rule, R3) {
      assert rule.id in RuleIds(f) && rule.triggers == ["T"];
      RuleHolds(f, m, rule);
    }
  }

  lemma EveryoneIsRevalidated(f: Facts)
    requires f.contracts == {Boundary()} && f.affected == {"C"} && f.state == map["T" := "1"] &&
      LaterCurrent(f) == f.evidence
    requires forall evidence <- f.evidence :: evidence.gates == {"G"} && evidence.fingerprints == map["T" := "1"]
    ensures forall evidence <- f.evidence :: FullyRevalidated(f, evidence, TheGate())
  {
    forall evidence | evidence in f.evidence ensures FullyRevalidated(f, evidence, TheGate()) {
      assert MatchesTriggers(evidence, ["T"], f.state);
      assert Boundary() in f.contracts && ContractFresh(f, evidence, Boundary());
    }
  }

  lemma SelectedCounts(f: Facts, evidence: Evidence, role: Role)
    requires Sample(f) && evidence in f.evidence && evidence.gates == {"G"} && evidence.fingerprints == map["T" := "1"]
    requires role in RequiredRoles(R3) && SelectedFor(f, role, evidence) && evidence.roles == {role}
    ensures Round8Participates(f, evidence, R3) && Round11Participates(f, evidence, R3) && FullyFresh(f, evidence, R3)
  {
  }

  lemma CountedIsEligible(f: Facts, evidence: Evidence, risk: Risk)
    requires evidence in LaterCurrent(f)
    requires Round8Participates(f, evidence, risk) && Round11Participates(f, evidence, risk) &&
      FullyFresh(f, evidence, risk)
    ensures {evidence} <= Round8Eligible(f, risk) && {evidence} <= Round11Eligible(f, risk)
  {
  }

  lemma SelectedIsEligible(f: Facts, evidence: Evidence, role: Role)
    requires Sample(f) && evidence in f.evidence && evidence.gates == {"G"} && evidence.fingerprints == map["T" := "1"]
    requires role in RequiredRoles(R3) && SelectedFor(f, role, evidence) && evidence.roles == {role} &&
      evidence in LaterCurrent(f)
    ensures {evidence} <= Round8Eligible(f, R3) && {evidence} <= Round11Eligible(f, R3)
  {
    SelectedCounts(f, evidence, role);
    CountedIsEligible(f, evidence, R3);
  }

  lemma PairIsEnough(f: Facts, m: Evidence, k: Evidence)
    requires {m} <= Round8Eligible(f, R3) && {k} <= Round8Eligible(f, R3) && {m} <= Round11Eligible(f, R3) &&
      {k} <= Round11Eligible(f, R3)
    requires Independent(m, k) && m.class_ != k.class_ && m.class_ != "" && k.class_ != ""
    requires LaterRisk(f) == R3 && f.gates == {TheGate()}
    ensures Round8Accepts(f) && Round11Accepts(f)
  {
    BothClassesCount(Round8Eligible(f, R3), m, k);
    BothClassesCount(Round11Eligible(f, R3), m, k);
  }

  lemma QuorumLayersAreContent(f: Facts, m: Evidence, k: Evidence, n: Evidence, r: Evidence)
    requires Sample(f) && Team(f, m, k, n, r) && LaterCurrent(f) == f.evidence
    ensures Round8Accepts(f) && Round11Accepts(f)
  {
    RiskIsR3(f);
    SelectedIsEligible(f, m, Implementation);
    SelectedIsEligible(f, k, Countercheck);
    PairIsEnough(f, m, k);
  }

  lemma SampleIsAccepted(f: Facts)
    requires Sample(f)
    ensures BaseAccepts(f) && HardeningAccepts(f) && Round8Accepts(f) && Round11Accepts(f)
  {
    RecordsAreCurrent(f);
    RecordsAreATeam(f);
    var m, k := RecordOf(f.head, f.fingerprint, "m", Implementation),
      RecordOf(f.head, f.fingerprint, "k", Countercheck);
    var n, r := RecordOf(f.head, f.fingerprint, "n", Negative), RecordOf(f.head, f.fingerprint, "r", Recovery);
    BaseIsContent(f, m, k, n, r);
    HardeningIsContent(f, m, k, n, r);
    QuorumLayersAreContent(f, m, k, n, r);
  }

  lemma RequestIsWellFormed(head: string, fingerprint: string)
    requires |head| == 40 && |fingerprint| == 64
    ensures RequestAccepted(Request(head, fingerprint))
  {
  }

  /** A complete request at R3 passes every layer and is allowed. */
  lemma SomeRequestIsAllowed(head: string, fingerprint: string)
    requires |head| == 40 && |fingerprint| == 64
    ensures AllLayersAccept(Request(head, fingerprint)) && VerdictOf(Request(head, fingerprint), true) == Allow
  {
    RequestIsUnambiguous(head, fingerprint);
    RequestIsWellFormed(head, fingerprint);
    RequestIsSample(head, fingerprint);
    SampleIsAccepted(FactsOf(Request(head, fingerprint)));
  }
}
