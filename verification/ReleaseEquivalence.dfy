/** The four layers together accept exactly the requests the policy allows. */
module ReleaseEquivalence {
  import opened Wrappers
  import opened ReleaseRecords
  import opened ReleaseLayers
  import opened ReleaseProperties
  import opened ReleasePolicy

  // ----- lists and sets -----

  lemma Members(inputs: Inputs)
    ensures Attested(inputs) == EvidenceOf(inputs)
    ensures var f := FactsOf(inputs);
            && (forall x :: x in f.invariants <==> x in inputs.invariants)
            && (forall x :: x in f.gates <==> x in inputs.gates)
            && (forall x :: x in f.contracts <==> x in inputs.contracts)
            && (forall x :: x in f.mappings <==> x in inputs.mappings)
            && (forall x :: x in f.evidence <==> x in Attested(inputs))
            && (forall x :: x in f.bindings <==> x in inputs.snapshot.bindings)
            && (forall x :: x in f.affected <==> x in inputs.snapshot.affected)
  {
  }

  lemma {:induction false} OnceEach<T>(items: seq<T>)
    requires forall i, j :: 0 <= i < j < |items| ==> items[i] != items[j]
    ensures forall item <- items :: multiset(items)[item] == 1
  {
    if items != [] {
      OnceEach(items[1..]);
      assert items == [items[0]] + items[1..];
      assert items[0] !in items[1..];
    }
  }

  lemma CountedTwice<T>(items: seq<T>, i: nat, j: nat)
    requires i < j < |items| && items[i] == items[j]
    ensures multiset(items)[items[i]] >= 2
  {
    assert items == items[..j] + [items[j]] + items[j + 1..];
    assert items[i] in items[..j];
  }

  /** Distinct by position, and distinct by multiplicity. */
  lemma DistinctMeansUnique<T(!new)>(items: seq<T>, name: T -> string, idOf: T -> string)
    requires forall item :: name(item) == idOf(item)
    ensures DistinctBy(items, name) <==> UniqueRegistry(items, idOf)
  {
    if DistinctBy(items, name) {
      OnceEach(items);
      forall left, right | left in items && right in items && idOf(left) == idOf(right) ensures left == right {
        var i, j :| 0 <= i < |items| && 0 <= j < |items| && items[i] == left && items[j] == right;
        assert i == j;
      }
    }
    if UniqueRegistry(items, idOf) {
      forall i, j | 0 <= j < i < |items| ensures name(items[j]) != name(items[i]) {
        assert items[i] in items && items[j] in items;
        if items[i] == items[j] { CountedTwice(items, j, i); }
      }
    }
  }

  lemma NothingTwiceMeans(inputs: Inputs)
    ensures NothingTwice(inputs) <==> Unambiguous(inputs)
  {
    DistinctMeansUnique(inputs.invariants, (rule: Invariant) => rule.id, InvariantId);
    DistinctMeansUnique(inputs.gates, (gate: Gate) => gate.id, GateId);
    DistinctMeansUnique(inputs.contracts, (contract: Contract) => contract.id, ContractId);
    DistinctMeansUnique(inputs.mappings, (mapping: Mapping) => mapping.contract, MappingId);
    DistinctMeansUnique(Attested(inputs), (evidence: Evidence) => evidence.id, EvidenceId);
    DistinctMeansUnique(inputs.snapshot.bindings, (binding: Binding) => binding.id, BindingId);
    DistinctMeansUnique(inputs.snapshot.affected, (id: string) => id, SelfId);
    assert DistinctNames(inputs.snapshot.affected) <==> DistinctBy(inputs.snapshot.affected, (id: string) => id);
  }

  lemma NamesMeanConfigured(names: seq<string>)
    ensures names != [] && DistinctNames(names) <==> Configured(names)
  {
  }

  lemma DocumentsMean(inputs: Inputs)
    ensures DocumentsAgree(inputs) && SnapshotMatches(inputs) <==> RequestAccepted(inputs)
  {
  }

  // ----- registries -----

  lemma RuleNamesMean()
    ensures REQUIRED_INVARIANTS == RULE_NAMES
  {
    assert InvariantName(1) == "FM-INV-001" && InvariantName(2) == "FM-INV-002" && InvariantName(3) == "FM-INV-003";
    assert InvariantName(4) == "FM-INV-004" && InvariantName(5) == "FM-INV-005" && InvariantName(6) == "FM-INV-006";
    assert InvariantName(7) == "FM-INV-007" && InvariantName(8) == "FM-INV-008" && InvariantName(9) == "FM-INV-009";
    assert InvariantName(10) == "FM-INV-010" && InvariantName(11) == "FM-INV-011" && InvariantName(12) == "FM-INV-012";
  }

  ghost predicate LayersSeeRules(f: Facts) {
    InvariantsEnforced(f) && RiskAboveInvariants(f) &&
    forall rule <- f.invariants | rule.required :: RuleConfigured(rule)
  }

  lemma RanksMean(low: Risk, high: Risk)
    ensures AtMost(low, high) <==> Rank(low) <= Rank(high)
    ensures Serious(high) <==> Rank(high) >= 3
    ensures high.R1? <==> Rank(high) < 2
  {
  }

  lemma RolesMean(risk: Risk, role: Role)
    ensures Needed(risk, role) <==> role in RequiredRoles(risk)
  {
  }

  lemma RuleSetMeans(inputs: Inputs)
    ensures (forall name :: name in RULE_NAMES <==> exists rule <- inputs.invariants :: rule.id == name) <==>
      RuleIds(FactsOf(inputs)) == REQUIRED_INVARIANTS
  {
    var f := FactsOf(inputs);
    Members(inputs);
    RuleNamesMean();
    forall name ensures name in RuleIds(f) <==> exists rule <- inputs.invariants :: rule.id == name {}
  }

  lemma RulesMean(inputs: Inputs, risk: Risk)
    requires inputs.snapshot.risk == Some(risk)
    ensures RulesInForce(inputs, risk) <==> LayersSeeRules(FactsOf(inputs))
  {
    var f := FactsOf(inputs);
    Members(inputs);
    RuleSetMeans(inputs);
    HighestBounds(InvariantRisks(f), risk);
    forall rule: Invariant
      ensures rule.triggers != [] && DistinctNames(rule.triggers) <==> Configured(rule.triggers)
    {
      NamesMeanConfigured(rule.triggers);
    }
    forall low: Risk ensures AtMost(low, risk) <==> Rank(low) <= Rank(risk) { RanksMean(low, risk); }
    if LayersSeeRules(f) {
      assert forall rule <- f.invariants :: rule.risk.value in InvariantRisks(f);
    }
  }

  ghost predicate LayersSeeContracts(f: Facts) {
    ContractsInScope(f) && RiskAboveContracts(f) && ContractTriggersConfigured(f)
  }

  lemma ScopeMeans(inputs: Inputs)
    ensures (inputs.contracts != [] &&
             forall id :: id in inputs.snapshot.affected <==>
               exists contract <- inputs.contracts :: contract.id == id) <==>
      FactsOf(inputs).affected != {} && FactsOf(inputs).affected == ContractIds(FactsOf(inputs))
  {
    var f := FactsOf(inputs);
    Members(inputs);
    forall id ensures id in ContractIds(f) <==> exists contract <- inputs.contracts :: contract.id == id {}
    assert f.affected == ContractIds(f) <==> forall id :: id in f.affected <==> id in ContractIds(f);
    assert inputs.contracts == [] <==> ContractIds(f) == {} by {
      if inputs.contracts != [] { assert inputs.contracts[0].id in ContractIds(f); }
    }
  }

  lemma ContractsMean(inputs: Inputs, risk: Risk)
    requires inputs.snapshot.risk == Some(risk)
    ensures ContractsInForce(inputs, risk) <==> LayersSeeContracts(FactsOf(inputs))
  {
    var f := FactsOf(inputs);
    Members(inputs);
    forall names ensures names != [] && DistinctNames(names) <==> Configured(names) { NamesMeanConfigured(names); }
    forall low: Risk ensures AtMost(low, risk) <==> Rank(low) <= Rank(risk) { RanksMean(low, risk); }
    forall id ensures id in ContractIds(f) <==> exists contract <- inputs.contracts :: contract.id == id {}
    ScopeMeans(inputs);
  }

  ghost predicate LayersSeeImpact(f: Facts) {
    GateContractsConfigured(f) && ImpactMapped(f) && MapsAgree(f)
  }

  lemma GateListsMean(inputs: Inputs)
    ensures GateContractsConfigured(FactsOf(inputs)) <==>
      forall gate <- inputs.gates ::
        gate.contracts != [] && DistinctNames(gate.contracts) &&
        forall id <- gate.contracts :: exists contract <- inputs.contracts :: contract.id == id
  {
    var f := FactsOf(inputs);
    Members(inputs);
    forall names ensures names != [] && DistinctNames(names) <==> Configured(names) { NamesMeanConfigured(names); }
    forall id ensures id in ContractIds(f) <==> exists contract <- inputs.contracts :: contract.id == id {}
  }

  lemma AuthoritativeMeans(inputs: Inputs, contract: Contract, id: string)
    requires GateContractsConfigured(FactsOf(inputs)) && contract in inputs.contracts
    ensures id in AuthoritativeGates(FactsOf(inputs), contract.id) <==>
      exists gate <- inputs.gates :: gate.id == id && contract.id in gate.contracts
  {
    Members(inputs);
  }

  lemma ImpactMeans(inputs: Inputs)
    requires Unambiguous(inputs) && ContractsInScope(FactsOf(inputs))
    ensures OneImpactRelation(inputs) <==> LayersSeeImpact(FactsOf(inputs))
  {
    var f := FactsOf(inputs);
    Members(inputs);
    GateListsMean(inputs);
    AcceptedIdsAreDistinct(inputs);
    if GateContractsConfigured(f) {
      if OneImpactRelation(inputs) { ImpactIsSeen(inputs); }
      if LayersSeeImpact(f) { SeenImpactHolds(inputs); }
    }
  }

  lemma GateIdsAreNames(inputs: Inputs, id: string)
    requires Unambiguous(inputs) && exists gate <- inputs.gates :: gate.id == id
    ensures id != ""
  {
    var gate :| gate in inputs.gates && gate.id == id;
    assert GateId(gate) == gate.id;
  }

  /** The row of one contract. */
  lemma RowIsSeen(inputs: Inputs, contract: Contract) returns (mapping: Mapping)
    requires Unambiguous(inputs) && GateContractsConfigured(FactsOf(inputs)) && OneImpactRelation(inputs)
    requires contract in inputs.contracts
    ensures mapping in inputs.mappings && mapping.contract == contract.id && MappingUsable(mapping)
    ensures AsSet(mapping.gates) == AuthoritativeGates(FactsOf(inputs), contract.id)
  {
    mapping :| mapping in inputs.mappings && mapping.contract == contract.id && mapping.gates != [] &&
      forall id :: id in mapping.gates <==>
        exists gate <- inputs.gates :: gate.id == id && contract.id in gate.contracts;
    forall id ensures id in AsSet(mapping.gates) <==> id in AuthoritativeGates(FactsOf(inputs), contract.id) {
      AuthoritativeMeans(inputs, contract, id);
    }
    if "" in mapping.gates { GateIdsAreNames(inputs, ""); }
  }

  lemma ImpactIsSeen(inputs: Inputs)
    requires Unambiguous(inputs) && ContractsInScope(FactsOf(inputs)) && GateContractsConfigured(FactsOf(inputs))
    requires DistinctIds(FactsOf(inputs)) && OneImpactRelation(inputs)
    ensures LayersSeeImpact(FactsOf(inputs))
  {
    var f := FactsOf(inputs);
    Members(inputs);
    forall id | id in f.affected
      ensures exists mapping <- f.mappings ::
        mapping.contract == id && MappingUsable(mapping) && AsSet(mapping.gates) == AuthoritativeGates(f, id)
    {
      var contract :| contract in f.contracts && contract.id == id;
      var mapping := RowIsSeen(inputs, contract);
    }
  }

  lemma SeenImpactHolds(inputs: Inputs)
    requires ContractsInScope(FactsOf(inputs)) && LayersSeeImpact(FactsOf(inputs))
    ensures OneImpactRelation(inputs)
  {
    var f := FactsOf(inputs);
    Members(inputs);
    GateListsMean(inputs);
    forall contract | contract in inputs.contracts
      ensures exists mapping <- inputs.mappings ::
          mapping.contract == contract.id && mapping.gates != [] &&
          forall id :: id in mapping.gates <==>
            exists gate <- inputs.gates :: gate.id == id && contract.id in gate.contracts
    {
      assert contract.id in ContractIds(f);
      var mapping :| mapping in f.mappings && mapping.contract == contract.id && MappingUsable(mapping);
      forall id ensures id in mapping.gates <==>
          exists gate <- inputs.gates :: gate.id == id && contract.id in gate.contracts
      {
        AuthoritativeMeans(inputs, contract, id);
        assert id in mapping.gates <==> id in AsSet(mapping.gates);
      }
    }
  }

  lemma GateIsMandatory(f: Facts, gate: Gate)
    requires f.affected == ContractIds(f) && GateContractsConfigured(f) && gate in f.gates
    ensures QuorumMandatory(f, gate) && gate.id in HardMandatory(f)
  {
    var id := gate.contracts[0];
    assert id in gate.contracts && id in f.affected;
    assert gate.id in AuthoritativeGates(f, id);
  }

  lemma HardMandatoryAreGates(f: Facts, id: string)
    requires id in HardMandatory(f)
    ensures exists gate <- f.gates :: gate.id == id
  {
  }

  /** Since every contract is affected and every gate names a contract, every gate is mandatory in every layer. */
  lemma EveryGateIsMandatory(inputs: Inputs)
    requires Unambiguous(inputs) && ContractsInScope(FactsOf(inputs)) && LayersSeeImpact(FactsOf(inputs))
    ensures var f := FactsOf(inputs);
      && BaseMandatory(f) == HardMandatory(f) == (set gate <- f.gates :: gate.id)
      && (forall gate <- f.gates :: QuorumMandatory(f, gate))
      && MandatoryGates(f) == f.gates
  {
    var f := FactsOf(inputs);
    AcceptedIdsAreDistinct(inputs);
    MandatoryGatesAgree(f);
    AllGatesMandatory(f);
  }

  lemma AllGatesMandatory(f: Facts)
    requires f.affected == ContractIds(f) && GateContractsConfigured(f) && BaseMandatory(f) == HardMandatory(f)
    ensures HardMandatory(f) == (set gate <- f.gates :: gate.id)
    ensures forall gate <- f.gates :: QuorumMandatory(f, gate)
    ensures MandatoryGates(f) == f.gates
  {
    forall gate | gate in f.gates ensures QuorumMandatory(f, gate) && gate.id in HardMandatory(f) {
      GateIsMandatory(f, gate);
    }
    forall id | id in HardMandatory(f) ensures exists gate <- f.gates :: gate.id == id { HardMandatoryAreGates(f, id); }
  }

  // ----- risk -----

  /** A risk that counts: the declared one, the floor of an affected contract, or the floor of a required invariant. */
  ghost predicate Counts(inputs: Inputs, risk: Risk) {
    || inputs.snapshot.risk == Some(risk)
    || (exists contract <- inputs.contracts ::
          contract.id in inputs.snapshot.affected && contract.minimumRisk == Some(risk))
    || (exists rule <- inputs.invariants :: rule.required && rule.risk == Some(risk))
  }

  lemma HigherMeans(left: Risk, right: Risk)
    ensures AtMost(left, Higher(left, right)) && AtMost(right, Higher(left, right))
    ensures Higher(left, right) == left || Higher(left, right) == right
  {
  }

  lemma HighestMeans(risks: set<Risk>)
    ensures forall risk <- risks :: AtMost(risk, Highest(risks))
    ensures Highest(risks) in risks || Highest(risks) == R1
  {
  }

  /** Whatever the request, the effective risk of the later layers is the highest that counts, R1 if none does. */
  lemma EffectiveRiskIsHighest(inputs: Inputs)
    ensures forall risk :: Counts(inputs, risk) ==> AtMost(risk, LaterRisk(FactsOf(inputs)))
    ensures Counts(inputs, LaterRisk(FactsOf(inputs))) || LaterRisk(FactsOf(inputs)) == R1
  {
    var f := FactsOf(inputs);
    Members(inputs);
    var contracts, rules := Highest(ContractRisks(f)), Highest(InvariantRisks(f));
    HighestMeans(ContractRisks(f));
    HighestMeans(InvariantRisks(f));
    HigherMeans(contracts, rules);
    if f.risk.Some? { HigherMeans(Higher(contracts, rules), f.risk.value); }
    forall risk ensures Counts(inputs, risk) <==>
        f.risk == Some(risk) || risk in ContractRisks(f) || risk in InvariantRisks(f)
    {
    }
  }

  // ----- evidence -----

  lemma TriggersMean(inputs: Inputs, evidence: Evidence, triggers: seq<string>)
    requires DocumentsAgree(inputs)
    ensures AllUnchanged(inputs, evidence, triggers) <==> MatchesTriggers(evidence, triggers, FactsOf(inputs).state)
  {
    forall trigger ensures Unchanged(inputs, evidence, trigger) <==>
        TriggerFresh(evidence, trigger, FactsOf(inputs).state)
    {}
  }

  lemma SoundMeansTrustworthy(inputs: Inputs, evidence: Evidence, binding: Binding)
    requires DocumentsAgree(inputs)
    ensures Trustworthy(inputs, evidence, binding) <==> Sound(FactsOf(inputs), evidence, binding)
  {
    if evidence.class_ in inputs.policy {
      TriggersMean(inputs, evidence, inputs.policy[evidence.class_].triggers);
      assert PolicyUsable(inputs.policy, evidence.class_) <==> ClassUsable(inputs.policy[evidence.class_]);
    }
  }

  lemma BindingsMean(inputs: Inputs)
    requires DocumentsAgree(inputs)
    ensures EveryBindingTrustworthy(inputs) <==> BindingsSound(FactsOf(inputs))
  {
    Members(inputs);
    forall evidence, binding
      ensures Trustworthy(inputs, evidence, binding) <==> Sound(FactsOf(inputs), evidence, binding)
    {
      SoundMeansTrustworthy(inputs, evidence, binding);
    }
  }

  lemma BoundMeansCurrent(inputs: Inputs, evidence: Evidence)
    requires DistinctIds(FactsOf(inputs)) && BindingsSound(FactsOf(inputs))
    ensures Bound(inputs, evidence) <==> evidence in BaseCurrent(FactsOf(inputs))
    ensures Bound(inputs, evidence) ==> evidence.class_ != ""
    ensures BaseCurrent(FactsOf(inputs)) == LaterCurrent(FactsOf(inputs))
  {
    var f := FactsOf(inputs);
    Members(inputs);
    CurrentEvidenceAgrees(f);
    if Bound(inputs, evidence) {
      var binding :| binding in inputs.snapshot.bindings && binding.id == evidence.id;
      var other :| other in f.evidence && other.id == binding.id && Sound(f, other, binding);
      assert other == evidence;
    }
  }

  // ----- the common ground -----

  ghost predicate LayersGround(inputs: Inputs, f: Facts) {
    RequestAccepted(inputs) && Unambiguous(inputs) && LayersSeeRules(f) && LayersSeeContracts(f) &&
    LayersSeeImpact(f) && BindingsSound(f)
  }

  lemma GroundMeans(inputs: Inputs, risk: Risk)
    requires inputs.snapshot.risk == Some(risk)
    ensures WellFormed(inputs, risk) <==>
      LayersGround(inputs, FactsOf(inputs))
  {
    DocumentsMean(inputs);
    NothingTwiceMeans(inputs);
    RulesMean(inputs, risk);
    ContractsMean(inputs, risk);
    if Unambiguous(inputs) && LayersSeeContracts(FactsOf(inputs)) { ImpactMeans(inputs); }
    if DocumentsAgree(inputs) { BindingsMean(inputs); }
  }

  /** On that ground every layer sees the same risk, the same gates and the same records: the bound ones. */
  ghost predicate SameView(inputs: Inputs, f: Facts, risk: Risk) {
    && f == FactsOf(inputs) && DocumentsAgree(inputs) && LaterRisk(f) == risk && f.risk == Some(risk)
    && f.affected == ContractIds(f) && GateContractsConfigured(f) && DistinctIds(f)
    && (forall rule <- f.invariants :: rule.required && RuleConfigured(rule))
    && (forall contract <- f.contracts :: contract.triggers.Some? ==> Configured(contract.triggers.value))
    && (forall gate <- f.gates :: gate.id in HardMandatory(f) && QuorumMandatory(f, gate))
    && MandatoryGates(f) == f.gates && BaseMandatory(f) == (set gate <- f.gates :: gate.id)
    && BaseCurrent(f) == LaterCurrent(f)
    && (forall evidence :: evidence in BaseCurrent(f) <==> Bound(inputs, evidence))
    && (forall evidence <- BaseCurrent(f) :: evidence.class_ != "")
  }

  lemma GroundGivesSameView(inputs: Inputs, risk: Risk)
    requires WellFormed(inputs, risk)
    ensures SameView(inputs, FactsOf(inputs), risk)
  {
    var f := FactsOf(inputs);
    GroundMeans(inputs, risk);
    AcceptedIdsAreDistinct(inputs);
    EffectiveRiskAgrees(f);
    EveryGateIsMandatory(inputs);
    assert forall contract <- f.contracts :: contract.id in ContractIds(f);
    CurrentEvidenceAgrees(f);
    forall evidence
      ensures evidence in BaseCurrent(f) <==> Bound(inputs, evidence)
      ensures evidence in BaseCurrent(f) ==> evidence.class_ != ""
    {
      BoundMeansCurrent(inputs, evidence);
    }
  }

  // ----- weighing the records -----

  lemma NeededMeans(evidence: Evidence, risk: Risk)
    ensures NeededIn(evidence, risk) <==> evidence.roles * RequiredRoles(risk) != {}
  {
    if NeededIn(evidence, risk) {
      var role :| role in evidence.roles && Needed(risk, role);
      assert role in evidence.roles * RequiredRoles(risk);
    }
    if role :| role in evidence.roles * RequiredRoles(risk) { RolesMean(risk, role); }
  }

  lemma RulesProvenMean(inputs: Inputs, f: Facts, risk: Risk)
    requires SameView(inputs, f, risk)
    ensures RulesProven(inputs, risk) <==> RulesRevalidated(f, LaterCurrent(f), risk)
    ensures RulesProven(inputs, risk) ==> forall id <- RuleIds(f) :: RuleCovered(BaseCurrent(f), id, risk)
  {
    Members(inputs);
    forall evidence ensures NeededIn(evidence, risk) <==> evidence.roles * RequiredRoles(risk) != {} {
      NeededMeans(evidence, risk);
    }
    forall evidence, triggers
      ensures AllUnchanged(inputs, evidence, triggers) <==> MatchesTriggers(evidence, triggers, f.state)
    {
      TriggersMean(inputs, evidence, triggers);
    }
  }

  lemma ApartMeans(a: Evidence, b: Evidence)
    ensures Apart(a, b) <==> Independent(a, b)
  {
  }

  lemma ChosenMeans(inputs: Inputs, f: Facts, role: Role)
    requires SameView(inputs, f, LaterRisk(f))
    ensures HasField(role) ==> (SomeoneChosen(inputs, role) <==> SelectedRecords(f, BaseCurrent(f), role) != {})
    ensures HasField(role) && SomeoneChosen(inputs, role) ==> WithRole(BaseCurrent(f), role) != {}
  {
    Members(inputs);
    if evidence :| evidence in SelectedRecords(f, BaseCurrent(f), role) {
      assert evidence in Attested(inputs) && Bound(inputs, evidence);
    }
    if SomeoneChosen(inputs, role) {
      var evidence :| evidence in Attested(inputs) && Bound(inputs, evidence) && Chosen(inputs, role, evidence);
      assert evidence in SelectedRecords(f, BaseCurrent(f), role) && evidence in WithRole(BaseCurrent(f), role);
    }
  }

  lemma SelectionMeans(inputs: Inputs, f: Facts, risk: Risk)
    requires SameView(inputs, f, risk)
    ensures SelectionHolds(inputs, risk) <==>
      RolesCovered(f, BaseCurrent(f), risk) && SelectionIndependent(f, BaseCurrent(f), risk)
  {
    EvidentialMeans(inputs, f, risk);
    PairsMean(inputs, f);
    forall role | HasField(role)
      ensures SomeoneChosen(inputs, role) <==> SelectedRecords(f, BaseCurrent(f), role) != {}
      ensures SomeoneChosen(inputs, role) ==> WithRole(BaseCurrent(f), role) != {}
    {
      ChosenMeans(inputs, f, role);
    }
    SelectionFollows(inputs, f, BaseCurrent(f), risk);
  }

  lemma ChosenCover(inputs: Inputs, f: Facts, valid: set<Evidence>, risk: Risk)
    requires !risk.R1?
    requires forall role :: HasField(role) ==> (SomeoneChosen(inputs, role) <==> SelectedRecords(f, valid, role) != {})
    requires forall role :: HasField(role) && SomeoneChosen(inputs, role) ==> WithRole(valid, role) != {}
    ensures RolesCovered(f, valid, risk) <==> forall role: Role :: Needed(risk, role) ==> SomeoneChosen(inputs, role)
  {
    forall role ensures Needed(risk, role) <==> role in RequiredRoles(risk) { RolesMean(risk, role); }
    assert forall role <- RequiredRoles(risk) :: HasField(role);
  }

  lemma SelectionFollows(inputs: Inputs, f: Facts, valid: set<Evidence>, risk: Risk)
    requires f.selected == inputs.snapshot.selected
    requires forall role :: HasField(role) ==> (SomeoneChosen(inputs, role) <==> SelectedRecords(f, valid, role) != {})
    requires forall role :: HasField(role) && SomeoneChosen(inputs, role) ==> WithRole(valid, role) != {}
    requires WithRole(valid, Evidential) != {} <==>
      exists evidence <- Attested(inputs) :: Bound(inputs, evidence) && Evidential in evidence.roles
    requires MakerAndCheckerChosenApart(inputs) <==>
      AnyIndependent(SelectedRecords(f, valid, Implementation), SelectedRecords(f, valid, Countercheck))
    ensures SelectionHolds(inputs, risk) <==> RolesCovered(f, valid, risk) && SelectionIndependent(f, valid, risk)
  {
    if risk.R1? {
      assert RequiredRoles(risk) == {Evidential};
    } else {
      ChosenCover(inputs, f, valid, risk);
    }
  }

  lemma EvidentialMeans(inputs: Inputs, f: Facts, risk: Risk)
    requires SameView(inputs, f, risk)
    ensures WithRole(BaseCurrent(f), Evidential) != {} <==>
      exists evidence <- Attested(inputs) :: Bound(inputs, evidence) && Evidential in evidence.roles
  {
    Members(inputs);
    if evidence :| evidence in WithRole(BaseCurrent(f), Evidential) { assert Bound(inputs, evidence); }
    if evidence :| evidence in Attested(inputs) && Bound(inputs, evidence) && Evidential in evidence.roles {
      assert evidence in WithRole(BaseCurrent(f), Evidential);
    }
  }

  lemma PairsMean(inputs: Inputs, f: Facts)
    requires f == FactsOf(inputs) && forall evidence :: evidence in BaseCurrent(f) <==> Bound(inputs, evidence)
    ensures MakerAndCheckerChosenApart(inputs) <==>
      AnyIndependent(SelectedRecords(f, BaseCurrent(f), Implementation),
                     SelectedRecords(f, BaseCurrent(f), Countercheck))
  {
    var makers, checkers :=
      SelectedRecords(f, BaseCurrent(f), Implementation), SelectedRecords(f, BaseCurrent(f), Countercheck);
    Members(inputs);
    if AnyIndependent(makers, checkers) {
      var maker, checker :| maker in makers && checker in checkers && Independent(maker, checker);
      assert Bound(inputs, maker) && Bound(inputs, checker) && Apart(maker, checker);
    }
    if MakerAndCheckerChosenApart(inputs) {
      var maker, checker :| maker in Attested(inputs) && checker in Attested(inputs) && Bound(inputs, maker) &&
        Bound(inputs, checker) && Chosen(inputs, Implementation, maker) && Chosen(inputs, Countercheck, checker) &&
        Apart(maker, checker);
      assert maker in makers && checker in checkers && Independent(maker, checker);
    }
  }

  // ----- one gate -----

  lemma UsableMeans(gate: Gate, risk: Risk)
    ensures RolesUsable(gate, risk) <==> GateRoles(gate, risk).Some?
    ensures RolesUsable(gate, risk) ==> forall role :: Asked(gate, risk, role) <==> role in GateRoles(gate, risk).value
  {
    forall role ensures Needed(risk, role) <==> role in RequiredRoles(risk) { RolesMean(risk, role); }
    assert Needed(risk, if risk.R1? then Evidential else Implementation);
  }

  lemma ProvesMeans(inputs: Inputs, f: Facts, evidence: Evidence, gate: Gate)
    requires SameView(inputs, f, LaterRisk(f)) && gate in f.gates
    ensures Supports(inputs, evidence, gate) <==> evidence in BaseCurrent(f) && gate.id in evidence.gates
    ensures Proves(inputs, evidence, gate) <==> evidence in Revalidated(f, gate)
  {
    Members(inputs);
    forall triggers ensures AllUnchanged(inputs, evidence, triggers) <==> MatchesTriggers(evidence, triggers, f.state) {
      TriggersMean(inputs, evidence, triggers);
    }
    if evidence in BaseCurrent(f) && gate.id in evidence.gates {
      forall contract | contract in f.contracts && contract.id in gate.contracts
        ensures contract.id in f.affected
      {
        assert contract.id in ContractIds(f);
      }
      if Proves(inputs, evidence, gate) {
        forall id | id in gate.contracts && id in f.affected
          ensures exists contract <- f.contracts :: contract.id == id && ContractFresh(f, evidence, contract)
        {
          var contract :| contract in f.contracts && contract.id == id;
          assert ContractFresh(f, evidence, contract);
        }
      }
    }
  }

  lemma StatesMeans(evidence: Evidence, gate: Gate, requirement: string)
    ensures States(evidence, gate, requirement) <==> Claims(evidence, gate.id, requirement)
  {
  }

  /** The records of a gate, as the policy and as the layers see them. */
  ghost predicate SameRecords(inputs: Inputs, gate: Gate, valid: set<Evidence>, proving: set<Evidence>) {
    && (forall evidence :: Supports(inputs, evidence, gate) <==> evidence in valid && gate.id in evidence.gates)
    && (forall evidence :: Proves(inputs, evidence, gate) <==> evidence in proving)
    && (forall evidence <- proving :: evidence in Attested(inputs))
    && (forall evidence <- valid :: evidence in Attested(inputs))
  }

  lemma AskedRolesMean(inputs: Inputs, gate: Gate, valid: set<Evidence>, proving: set<Evidence>, role: Role)
    requires SameRecords(inputs, gate, valid, proving)
    ensures RoleProven(inputs, gate, role) <==> WithRole(proving, role) != {}
    ensures WithRole(proving, role) != {} ==> GateRecords(valid, gate.id, role) != {}
  {
    if evidence :| evidence in WithRole(proving, role) {
      assert Proves(inputs, evidence, gate) && evidence in Attested(inputs);
      assert evidence in GateRecords(valid, gate.id, role);
    }
    if evidence :| evidence in Attested(inputs) && Proves(inputs, evidence, gate) && role in evidence.roles {
      assert evidence in WithRole(proving, role);
    }
  }

  lemma TwoApartMeans(inputs: Inputs, gate: Gate, risk: Risk, valid: set<Evidence>, proving: set<Evidence>)
    requires SameRecords(inputs, gate, valid, proving)
    ensures TwoApart(inputs, gate, risk) <==>
      && (!risk.R1? ==> AnyIndependent(WithRole(proving, Implementation), WithRole(proving, Countercheck)))
      && (Asked(gate, risk, Implementation) && Asked(gate, risk, Countercheck) ==>
            AnyIndependent(GateRecords(valid, gate.id, Implementation), GateRecords(valid, gate.id, Countercheck)))
  {
    forall a, b ensures Apart(a, b) <==> Independent(a, b) { ApartMeans(a, b); }
    assert AnyIndependent(WithRole(proving, Implementation), WithRole(proving, Countercheck)) <==>
      exists maker <- Attested(inputs), checker <- Attested(inputs) ::
        Proves(inputs, maker, gate) && Proves(inputs, checker, gate) &&
        Implementation in maker.roles && Countercheck in checker.roles && Apart(maker, checker);
    assert AnyIndependent(GateRecords(valid, gate.id, Implementation), GateRecords(valid, gate.id, Countercheck)) <==>
      exists maker <- Attested(inputs), checker <- Attested(inputs) ::
        Supports(inputs, maker, gate) && Supports(inputs, checker, gate) &&
        Implementation in maker.roles && Countercheck in checker.roles && Apart(maker, checker);
  }

  lemma SeparationMeans(inputs: Inputs, gate: Gate, valid: set<Evidence>, proving: set<Evidence>)
    requires SameRecords(inputs, gate, valid, proving)
    ensures GateRecords(valid, gate.id, Negative) * GateRecords(valid, gate.id, Recovery) == {} <==>
      NobodyNegativeAndRecovery(inputs, gate)
  {
    var both := GateRecords(valid, gate.id, Negative) * GateRecords(valid, gate.id, Recovery);
    forall evidence
      ensures evidence in both <==>
        evidence in valid && gate.id in evidence.gates && Negative in evidence.roles && Recovery in evidence.roles
    {}
  }

  lemma RequirementsMean(inputs: Inputs, gate: Gate, risk: Risk, valid: set<Evidence>, proving: set<Evidence>)
    requires SameRecords(inputs, gate, valid, proving) && GateRoles(gate, risk).Some?
    ensures RequirementsProven(inputs, gate, risk) <==>
      RequirementsCarried(proving, gate, GateRoles(gate, risk).value)
  {
    UsableMeans(gate, risk);
    NamesMeanConfigured(gate.requirements);
    forall evidence, requirement ensures States(evidence, gate, requirement) <==> Claims(evidence, gate.id, requirement)
    {
      StatesMeans(evidence, gate, requirement);
    }
    forall requirement
      ensures RequirementCovered(proving, gate, requirement) <==>
        requirement in gate.requirementRoles &&
        exists evidence <- Attested(inputs) ::
          Proves(inputs, evidence, gate) && StatesInRole(evidence, gate, requirement)
    {
    }
    assert gate.requirementRoles.Keys == AsSet(gate.requirements) <==>
      forall requirement :: requirement in gate.requirementRoles <==> requirement in gate.requirements;
  }

  // ----- countercheck claims of one gate -----

  lemma UnwatchedIsNeverFresh(inputs: Inputs, f: Facts, gate: Gate, evidence: Evidence)
    requires SameView(inputs, f, LaterRisk(f)) && gate in f.gates && !Watched(inputs, gate)
    ensures !StrictlyFreshForGate(f, evidence, gate)
  {
    Members(inputs);
    var contract :| contract in f.contracts && contract.id in gate.contracts && contract.triggers.None?;
    assert contract.id in ContractIds(f) && BehindGate(f, gate, contract.id);
    assert forall other <- f.contracts :: other.id == contract.id ==> other == contract;
  }

  lemma HoldersProve(inputs: Inputs, f: Facts, gate: Gate, risk: Risk, evidence: Evidence)
    requires SameView(inputs, f, risk) && gate in f.gates && Watched(inputs, gate) && GateRoles(gate, risk).Some?
    ensures evidence in GateHolders(f, gate, risk) <==>
      Proves(inputs, evidence, gate) && evidence.roles * GateRoles(gate, risk).value != {}
  {
    ProvesMeans(inputs, f, evidence, gate);
    WatchedGateIsStrict(inputs, f, gate, evidence);
  }

  /** With triggers everywhere, both notions of freshness for a gate coincide. */
  lemma WatchedGateIsStrict(inputs: Inputs, f: Facts, gate: Gate, evidence: Evidence)
    requires SameView(inputs, f, LaterRisk(f)) && gate in f.gates && Watched(inputs, gate)
    ensures evidence in BaseCurrent(f) && gate.id in evidence.gates ==>
      (FullyRevalidated(f, evidence, gate) <==> StrictlyFreshForGate(f, evidence, gate))
  {
    Members(inputs);
    forall id | id in gate.contracts
      ensures BehindGate(f, gate, id)
      ensures StrictlyFresh(f, evidence, id) <==>
        exists contract <- f.contracts :: contract.id == id && ContractFresh(f, evidence, contract)
    {
      assert id in ContractIds(f);
    }
  }

  /** The records a quorum layer counts for a watched gate: the proving ones with a role the gate asks for. */
  ghost predicate HoldersOf(holders: set<Evidence>, proving: set<Evidence>, roles: set<Role>) {
    forall evidence :: evidence in holders <==> evidence in proving && evidence.roles * roles != {}
  }

  lemma HolderInRole(holders: set<Evidence>, proving: set<Evidence>, roles: set<Role>, evidence: Evidence, role: Role)
    requires HoldersOf(holders, proving, roles) && role in roles && role in evidence.roles
    ensures evidence in holders <==> evidence in proving
  {
    assert role in evidence.roles * roles;
  }

  /** A countercheck requirement of a proven gate has makers and claimers among the holders. */
  lemma HoldersAreThere(holders: set<Evidence>, proving: set<Evidence>, gate: Gate, risk: Risk, requirement: string)
    requires GateProven(proving, gate, risk) && HoldersOf(holders, proving, GateRoles(gate, risk).value)
    requires Implementation in GateRoles(gate, risk).value && Countercheck in GateRoles(gate, risk).value
    requires requirement in gate.requirements && gate.requirementRoles[requirement] == Countercheck
    ensures WithRole(holders, Implementation) != {} && Claimers(holders, gate.id, requirement) != {}
  {
    var roles := GateRoles(gate, risk).value;
    var maker :| maker in WithRole(proving, Implementation);
    assert RequirementCovered(proving, gate, requirement);
    var checker :| checker in proving && Countercheck in checker.roles && Claims(checker, gate.id, requirement);
    HolderInRole(holders, proving, roles, maker, Implementation);
    HolderInRole(holders, proving, roles, checker, Countercheck);
    assert maker in WithRole(holders, Implementation) && checker in Claimers(holders, gate.id, requirement);
  }

  lemma ClaimApartMeans(inputs: Inputs, holders: set<Evidence>, proving: set<Evidence>, gate: Gate, roles: set<Role>,
                        requirement: string)
    requires HoldersOf(holders, proving, roles) && Implementation in roles && Countercheck in roles
    requires forall evidence :: Proves(inputs, evidence, gate) <==> evidence in proving
    requires requirement in gate.requirementRoles && gate.requirementRoles[requirement] == Countercheck
    ensures ClaimApart(inputs, gate, requirement) <==>
      AnyIndependent(WithRole(holders, Implementation), Claimers(holders, gate.id, requirement))
  {
    var makers, claimers := WithRole(holders, Implementation), Claimers(holders, gate.id, requirement);
    forall evidence
      ensures evidence in makers <==> Proves(inputs, evidence, gate) && Implementation in evidence.roles
      ensures evidence in claimers <==> Proves(inputs, evidence, gate) && StatesInRole(evidence, gate, requirement)
    {
      StatesMeans(evidence, gate, requirement);
      if Implementation in evidence.roles {
        HolderInRole(holders, proving, roles, evidence, Implementation);
      }
      if Countercheck in evidence.roles {
        HolderInRole(holders, proving, roles, evidence, Countercheck);
      }
    }
    forall a, b ensures Apart(a, b) <==> Independent(a, b) { ApartMeans(a, b); }
  }

  lemma CounterclaimsMean(inputs: Inputs, f: Facts, gate: Gate, risk: Risk)
    requires SameView(inputs, f, risk) && gate in f.gates && Serious(risk)
    requires GateProven(Revalidated(f, gate), gate, risk)
    ensures CounterclaimsIndependent(GateHolders(f, gate, risk), gate) <==>
      (Watched(inputs, gate) ==> CountercheckedApart(inputs, gate))
  {
    var holders, proving := GateHolders(f, gate, risk), Revalidated(f, gate);
    if !Watched(inputs, gate) {
      forall evidence ensures evidence !in holders { UnwatchedIsNeverFresh(inputs, f, gate, evidence); }
    } else {
      UsableMeans(gate, risk);
      forall evidence
        ensures Proves(inputs, evidence, gate) <==> evidence in proving
        ensures evidence in holders <==>
          evidence in proving && evidence.roles * GateRoles(gate, risk).value != {}
      {
        ProvesMeans(inputs, f, evidence, gate);
        HoldersProve(inputs, f, gate, risk, evidence);
      }
      CounterclaimsFollow(inputs, holders, proving, gate, risk);
    }
  }

  lemma CounterclaimsFollow(inputs: Inputs, holders: set<Evidence>, proving: set<Evidence>, gate: Gate, risk: Risk)
    requires Serious(risk) && GateProven(proving, gate, risk)
    requires HoldersOf(holders, proving, GateRoles(gate, risk).value)
    requires forall evidence :: Proves(inputs, evidence, gate) <==> evidence in proving
    ensures CounterclaimsIndependent(holders, gate) <==> CountercheckedApart(inputs, gate)
  {
    var roles := GateRoles(gate, risk).value;
    assert Implementation in RequiredRoles(risk) && Countercheck in RequiredRoles(risk);
    forall requirement | requirement in gate.requirements && gate.requirementRoles[requirement] == Countercheck
      ensures WithRole(holders, Implementation) != {} && Claimers(holders, gate.id, requirement) != {}
      ensures ClaimApart(inputs, gate, requirement) <==>
        AnyIndependent(WithRole(holders, Implementation), Claimers(holders, gate.id, requirement))
    {
      HoldersAreThere(holders, proving, gate, risk, requirement);
      ClaimApartMeans(inputs, holders, proving, gate, roles, requirement);
    }
  }

  lemma GateMeans(inputs: Inputs, f: Facts, gate: Gate, risk: Risk)
    requires SameView(inputs, f, risk) && gate in f.gates
    ensures GateHolds(inputs, gate, risk) <==>
      && gate.verified && GateCovered(BaseCurrent(f), gate, risk) && GateProven(Revalidated(f, gate), gate, risk)
      && (Serious(risk) ==> CounterclaimsIndependent(GateHolders(f, gate, risk), gate))
  {
    Members(inputs);
    forall evidence
      ensures Supports(inputs, evidence, gate) <==> evidence in BaseCurrent(f) && gate.id in evidence.gates
      ensures Proves(inputs, evidence, gate) <==> evidence in Revalidated(f, gate)
    {
      ProvesMeans(inputs, f, evidence, gate);
    }
    GateFollows(inputs, gate, risk, BaseCurrent(f), Revalidated(f, gate));
    if GateProven(Revalidated(f, gate), gate, risk) && Serious(risk) {
      CounterclaimsMean(inputs, f, gate, risk);
    }
  }

  lemma RolesProvenMean(inputs: Inputs, gate: Gate, risk: Risk, valid: set<Evidence>, proving: set<Evidence>)
    requires SameRecords(inputs, gate, valid, proving) && RolesUsable(gate, risk) && GateRoles(gate, risk).Some?
    ensures RolesProven(inputs, gate, risk) <==> RolesCarried(proving, GateRoles(gate, risk).value)
    ensures RolesProven(inputs, gate, risk) ==>
      forall role <- GateRoles(gate, risk).value :: GateRecords(valid, gate.id, role) != {}
  {
    UsableMeans(gate, risk);
    forall role
      ensures RoleProven(inputs, gate, role) <==> WithRole(proving, role) != {}
      ensures WithRole(proving, role) != {} ==> GateRecords(valid, gate.id, role) != {}
    {
      AskedRolesMean(inputs, gate, valid, proving, role);
    }
  }

  lemma AskedPair(gate: Gate, risk: Risk)
    requires RolesUsable(gate, risk) && GateRoles(gate, risk).Some?
    ensures forall role :: Asked(gate, risk, role) <==> role in GateRoles(gate, risk).value
    ensures risk.R1? <==> !(Rank(risk) >= 2)
  {
    UsableMeans(gate, risk);
    RanksMean(risk, risk);
  }

  /** The requirement part of a gate's proof contract. */
  ghost predicate RequirementsCarried(proving: set<Evidence>, gate: Gate, roles: set<Role>) {
    && Configured(gate.requirements) && gate.requirementRoles.Keys == AsSet(gate.requirements)
    && (forall requirement <- gate.requirementRoles :: gate.requirementRoles[requirement] in roles)
    && forall requirement <- gate.requirements :: RequirementCovered(proving, gate, requirement)
  }

  ghost predicate RolesCarried(proving: set<Evidence>, roles: set<Role>) {
    forall role <- roles :: WithRole(proving, role) != {}
  }

  ghost predicate PairsCarried(valid: set<Evidence>, proving: set<Evidence>, gate: Gate, risk: Risk, roles: set<Role>) {
    && (Rank(risk) >= 2 ==> AnyIndependent(WithRole(proving, Implementation), WithRole(proving, Countercheck)))
    && (Implementation in roles && Countercheck in roles ==>
          AnyIndependent(GateRecords(valid, gate.id, Implementation), GateRecords(valid, gate.id, Countercheck)))
  }

  ghost predicate Separated(valid: set<Evidence>, gate: Gate, roles: set<Role>) {
    Negative in roles && Recovery in roles ==>
      GateRecords(valid, gate.id, Negative) * GateRecords(valid, gate.id, Recovery) == {}
  }

  /** Both layers' conditions on a gate, clause by clause; covering the roles follows from proving them. */
  lemma LayerClauses(gate: Gate, risk: Risk, valid: set<Evidence>, proving: set<Evidence>, roles: set<Role>)
    requires GateRoles(gate, risk) == Some(roles)
    requires RolesCarried(proving, roles) ==> forall role <- roles :: GateRecords(valid, gate.id, role) != {}
    ensures GateCovered(valid, gate, risk) && GateProven(proving, gate, risk) <==>
      && RolesCarried(proving, roles) && PairsCarried(valid, proving, gate, risk, roles)
      && Separated(valid, gate, roles) && RequirementsCarried(proving, gate, roles)
  {
  }

  lemma PairsAgree(inputs: Inputs, gate: Gate, risk: Risk, valid: set<Evidence>, proving: set<Evidence>,
                   roles: set<Role>)
    requires SameRecords(inputs, gate, valid, proving) && RolesUsable(gate, risk)
    requires GateRoles(gate, risk) == Some(roles)
    ensures PairsCarried(valid, proving, gate, risk, roles) <==> TwoApart(inputs, gate, risk)
    ensures Separated(valid, gate, roles) <==>
      (Asked(gate, risk, Negative) && Asked(gate, risk, Recovery) ==> NobodyNegativeAndRecovery(inputs, gate))
  {
    AskedPair(gate, risk);
    TwoApartMeans(inputs, gate, risk, valid, proving);
    SeparationMeans(inputs, gate, valid, proving);
  }

  /** With usable roles the policy's clauses and the layers' agree one by one. */
  lemma ClausesAgree(inputs: Inputs, gate: Gate, risk: Risk, valid: set<Evidence>, proving: set<Evidence>,
                     roles: set<Role>)
    requires SameRecords(inputs, gate, valid, proving) && RolesUsable(gate, risk)
    requires GateRoles(gate, risk) == Some(roles)
    ensures GateCovered(valid, gate, risk) && GateProven(proving, gate, risk) <==>
      && RolesProven(inputs, gate, risk) && TwoApart(inputs, gate, risk)
      && (Asked(gate, risk, Negative) && Asked(gate, risk, Recovery) ==> NobodyNegativeAndRecovery(inputs, gate))
      && RequirementsProven(inputs, gate, risk)
  {
    RolesProvenMean(inputs, gate, risk, valid, proving);
    PairsAgree(inputs, gate, risk, valid, proving, roles);
    RequirementsMean(inputs, gate, risk, valid, proving);
    LayerClauses(gate, risk, valid, proving, roles);
  }

  lemma GateFollows(inputs: Inputs, gate: Gate, risk: Risk, valid: set<Evidence>, proving: set<Evidence>)
    requires SameRecords(inputs, gate, valid, proving)
    ensures GateHolds(inputs, gate, risk) <==>
      && gate.verified && GateCovered(valid, gate, risk) && GateProven(proving, gate, risk)
      && (Serious(risk) && Watched(inputs, gate) ==> CountercheckedApart(inputs, gate))
  {
    UsableMeans(gate, risk);
    if RolesUsable(gate, risk) {
      ClausesAgree(inputs, gate, risk, valid, proving, GateRoles(gate, risk).value);
    }
  }

  // ----- the strict quorum -----

  lemma StrictMeansWatched(inputs: Inputs, f: Facts, gate: Gate, evidence: Evidence)
    requires SameView(inputs, f, LaterRisk(f)) && gate in f.gates && Supports(inputs, evidence, gate)
    ensures StrictlyFreshForGate(f, evidence, gate) <==> Watched(inputs, gate) && Proves(inputs, evidence, gate)
  {
    ProvesMeans(inputs, f, evidence, gate);
    if Watched(inputs, gate) {
      WatchedGateIsStrict(inputs, f, gate, evidence);
    } else {
      UnwatchedIsNeverFresh(inputs, f, gate, evidence);
    }
  }

  lemma CurrentThroughoutMeans(inputs: Inputs, f: Facts, evidence: Evidence, risk: Risk)
    requires SameView(inputs, f, risk) && forall gate <- f.gates :: GateRoles(gate, risk).Some?
    ensures CurrentThroughout(inputs, evidence) <==> evidence in LaterCurrent(f) && FullyFresh(f, evidence, risk)
  {
    Members(inputs);
    forall triggers ensures AllUnchanged(inputs, evidence, triggers) <==> MatchesTriggers(evidence, triggers, f.state) {
      TriggersMean(inputs, evidence, triggers);
    }
    forall gate | gate in f.gates && Supports(inputs, evidence, gate)
      ensures StrictlyFreshForGate(f, evidence, gate) <==> Watched(inputs, gate) && Proves(inputs, evidence, gate)
    {
      StrictMeansWatched(inputs, f, gate, evidence);
    }
    assert forall rule <- f.invariants :: TouchesRule(f, evidence, rule) <==> rule.id in evidence.invariants;
    assert forall gate <- f.gates :: TouchesGate(f, evidence, gate) <==> gate.id in evidence.gates;
  }

  lemma SelectedMeans(inputs: Inputs, f: Facts, evidence: Evidence)
    requires f == FactsOf(inputs)
    ensures SelectedSomewhere(f, evidence) <==> exists role <- evidence.roles :: Chosen(inputs, role, evidence)
  {
    if role :| role in evidence.roles && Chosen(inputs, role, evidence) {
      assert role in {Implementation, Countercheck, Negative, Recovery} && SelectedFor(f, role, evidence);
    }
    if SelectedSomewhere(f, evidence) {
      var role :| role in {Implementation, Countercheck, Negative, Recovery} && SelectedFor(f, role, evidence);
      assert Chosen(inputs, role, evidence);
    }
  }

  lemma TakesPartMeans(inputs: Inputs, f: Facts, evidence: Evidence, risk: Risk)
    requires SameView(inputs, f, risk) && forall gate <- f.gates :: GateProven(Revalidated(f, gate), gate, risk)
    requires FullyFresh(f, evidence, risk)
    ensures TakesPart(inputs, evidence, risk) <==> Round11Participates(f, evidence, risk)
  {
    Members(inputs);
    NeededMeans(evidence, risk);
    assert NamesGate(inputs, evidence) <==> TouchesAnyGate(f, evidence);
    assert NamesRule(inputs, evidence) <==> TouchesAnyRule(f, evidence);
    SelectedMeans(inputs, f, evidence);
    forall gate | gate in f.gates
      ensures StatesSomething(evidence, gate) <==>
        TouchesGate(f, evidence, gate) && GateRevalidated(f, evidence, gate, risk) && ClaimsAt(evidence, gate)
    {
      ClaimingMeans(f, gate, evidence, risk);
    }
  }

  lemma ClaimingMeans(f: Facts, gate: Gate, evidence: Evidence, risk: Risk)
    requires gate in f.gates && QuorumMandatory(f, gate) && GateProven(Revalidated(f, gate), gate, risk)
    requires FullyFresh(f, evidence, risk)
    ensures StatesSomething(evidence, gate) <==>
      TouchesGate(f, evidence, gate) && GateRevalidated(f, evidence, gate, risk) && ClaimsAt(evidence, gate)
  {
    forall requirement ensures States(evidence, gate, requirement) <==> Claims(evidence, gate.id, requirement) {
      StatesMeans(evidence, gate, requirement);
    }
    if ClaimsAt(evidence, gate) {
      var requirement :| requirement in gate.requirements && requirement in gate.requirementRoles &&
        gate.requirementRoles[requirement] in evidence.roles && Claims(evidence, gate.id, requirement);
      assert gate.requirementRoles[requirement] in evidence.roles * GateRoles(gate, risk).value;
      assert StatesInRole(evidence, gate, requirement);
    }
  }

  lemma QuorumMeans(inputs: Inputs, f: Facts, risk: Risk)
    requires SameView(inputs, f, risk) && forall gate <- f.gates :: GateProven(Revalidated(f, gate), gate, risk)
    ensures TwoClassesApart(inputs, risk) <==>
      |Classes(Round11Eligible(f, risk))| >= 2 && IndependentClassPair(Round11Eligible(f, risk))
  {
    forall evidence
      ensures evidence in Round11Eligible(f, risk) <==>
        evidence in Attested(inputs) && CurrentThroughout(inputs, evidence) && TakesPart(inputs, evidence, risk)
    {
      Members(inputs);
      CurrentThroughoutMeans(inputs, f, evidence, risk);
      if evidence in LaterCurrent(f) && FullyFresh(f, evidence, risk) { TakesPartMeans(inputs, f, evidence, risk); }
    }
    QuorumFollows(inputs, Round11Eligible(f, risk), risk);
  }

  lemma TwoClasses(records: set<Evidence>)
    requires IndependentClassPair(records) && forall evidence <- records :: evidence.class_ != ""
    ensures |Classes(records)| >= 2
  {
    var a, b :| a in records && b in records && a.class_ != b.class_ && Independent(a, b);
    assert {a.class_, b.class_} <= Classes(records);
    SubsetCardinality({a.class_, b.class_}, Classes(records));
  }

  lemma QuorumFollows(inputs: Inputs, eligible: set<Evidence>, risk: Risk)
    requires forall evidence :: evidence in eligible <==>
      evidence in Attested(inputs) && CurrentThroughout(inputs, evidence) && TakesPart(inputs, evidence, risk)
    requires forall evidence <- eligible :: evidence.class_ != ""
    ensures TwoClassesApart(inputs, risk) <==> |Classes(eligible)| >= 2 && IndependentClassPair(eligible)
  {
    if TwoClassesApart(inputs, risk) {
      var a, b :| a in Attested(inputs) && b in Attested(inputs) && CurrentThroughout(inputs, a) &&
        CurrentThroughout(inputs, b) && TakesPart(inputs, a, risk) && TakesPart(inputs, b, risk) &&
        a.class_ != b.class_ && Apart(a, b);
      ApartMeans(a, b);
      assert a in eligible && b in eligible;
      assert IndependentClassPair(eligible);
      TwoClasses(eligible);
    }
    if IndependentClassPair(eligible) {
      var a, b :| a in eligible && b in eligible && a.class_ != b.class_ && Independent(a, b);
      ApartMeans(a, b);
      assert a in Attested(inputs) && b in Attested(inputs);
    }
  }

  // ----- the earlier quorums follow -----

  /** Below R3 one participant is enough, and the records that prove the invariants are participants. */
  lemma RecordParticipates(f: Facts, risk: Risk, evidence: Evidence, id: string)
    requires evidence in BaseCurrent(f) && id in RuleIds(f) && id in evidence.invariants
    requires evidence.roles * RequiredRoles(risk) != {}
    ensures |Classes(BaseParticipants(f, risk))| >= 1
  {
    assert evidence in BaseParticipants(f, risk);
    assert evidence.class_ in Classes(BaseParticipants(f, risk));
  }

  /** A revalidated invariant is covered, and the record that covers it takes part in the base quorum. */
  lemma RevalidatedRuleIsCovered(f: Facts, risk: Risk, rule: Invariant)
    requires rule in f.invariants && BaseCurrent(f) == LaterCurrent(f)
    requires RuleRevalidated(f, LaterCurrent(f), rule, risk)
    ensures RuleCovered(BaseCurrent(f), rule.id, risk)
    ensures |Classes(BaseParticipants(f, risk))| >= 1
  {
    var evidence :| evidence in BaseCurrent(f) && rule.id in evidence.invariants &&
      evidence.roles * RequiredRoles(risk) != {};
    RecordParticipates(f, risk, evidence, rule.id);
  }

  lemma RulesAreCovered(f: Facts, risk: Risk)
    requires InvariantsEnforced(f) && BaseCurrent(f) == LaterCurrent(f) && RulesRevalidated(f, LaterCurrent(f), risk)
    ensures forall id <- RuleIds(f) :: RuleCovered(BaseCurrent(f), id, risk)
    ensures |Classes(BaseParticipants(f, risk))| >= 1
  {
    forall rule | rule in f.invariants
      ensures RuleCovered(BaseCurrent(f), rule.id, risk) && |Classes(BaseParticipants(f, risk))| >= 1
    {
      RevalidatedRuleIsCovered(f, risk, rule);
    }
    assert InvariantName(1) in REQUIRED_INVARIANTS;
    var rule :| rule in f.invariants && rule.id == InvariantName(1);
  }

  lemma EarlierQuorumsFollow(f: Facts, risk: Risk)
    requires DistinctIds(f) && BindingsSound(f) && LayersSeeImpact(f) && LaterRisk(f) == risk && Rank(risk) >= 3
    requires |Classes(Round11Eligible(f, risk))| >= 2 && IndependentClassPair(Round11Eligible(f, risk))
    ensures Quorum(BaseParticipants(f, risk), risk)
    ensures |Classes(Round8Eligible(f, risk))| >= 2 && IndependentClassPair(Round8Eligible(f, risk))
  {
    StrictQuorumSubsumes(f);
  }

  // ----- the whole -----

  /** What is left to compare once the ground is common. */
  ghost predicate LayersWeigh(f: Facts, risk: Risk) {
    && GatesVerified(f) && EvidenceAccepted(f, BaseCurrent(f), MandatoryGates(f), RuleIds(f), risk)
    && RulesRevalidated(f, LaterCurrent(f), risk) && GatesProven(f, risk) && Round8Accepts(f) && Round11Accepts(f)
  }

  lemma AcceptanceSplits(inputs: Inputs, f: Facts, risk: Risk)
    requires f == FactsOf(inputs) && f.risk == Some(risk)
    ensures AllLayersAccept(inputs) <==> LayersGround(inputs, f) && LayersWeigh(f, risk)
  {
    if LayersGround(inputs, f) { EffectiveRiskAgrees(f); }
    if AllLayersAccept(inputs) {
      EffectiveRiskAgrees(f);
      assert forall rule <- f.invariants | rule.required :: RuleConfigured(rule);
    }
  }

  lemma VerifiedMeans(inputs: Inputs, f: Facts, risk: Risk)
    requires SameView(inputs, f, risk)
    ensures GatesVerified(f) <==> forall gate <- inputs.gates :: gate.verified
  {
    Members(inputs);
    if GatesVerified(f) {
      forall gate | gate in inputs.gates ensures gate.verified {
        assert gate.id in BaseMandatory(f);
        var other :| other in f.gates && other.id == gate.id && other.verified;
        assert other == gate;
      }
    }
  }

  lemma GatesMean(inputs: Inputs, f: Facts, risk: Risk)
    requires SameView(inputs, f, risk)
    ensures (forall gate <- inputs.gates :: GateHolds(inputs, gate, risk)) <==>
      && (forall gate <- inputs.gates :: gate.verified)
      && (forall gate <- f.gates ::
            GateCovered(BaseCurrent(f), gate, risk) && GateProven(Revalidated(f, gate), gate, risk))
      && (Serious(risk) ==> forall gate <- f.gates :: CounterclaimsIndependent(GateHolders(f, gate, risk), gate))
  {
    Members(inputs);
    forall gate | gate in f.gates
      ensures GateHolds(inputs, gate, risk) <==>
        && gate.verified && GateCovered(BaseCurrent(f), gate, risk) && GateProven(Revalidated(f, gate), gate, risk)
        && (Serious(risk) ==> CounterclaimsIndependent(GateHolders(f, gate, risk), gate))
    {
      GateMeans(inputs, f, gate, risk);
    }
  }

  /** What the quorum layers ask below the strict quorum, with the gates counted as mandatory. */
  ghost predicate Counterclaims(f: Facts, risk: Risk) {
    Rank(risk) >= 3 ==> forall gate <- f.gates :: CounterclaimsIndependent(GateHolders(f, gate, risk), gate)
  }

  ghost predicate StrictQuorum(f: Facts, risk: Risk) {
    Rank(risk) >= 3 ==> |Classes(Round11Eligible(f, risk))| >= 2 && IndependentClassPair(Round11Eligible(f, risk))
  }

  ghost predicate GatesCarry(f: Facts, risk: Risk) {
    forall gate <- f.gates :: GateCovered(BaseCurrent(f), gate, risk) && GateProven(Revalidated(f, gate), gate, risk)
  }

  ghost predicate CoreRecords(f: Facts, risk: Risk) {
    RolesCovered(f, BaseCurrent(f), risk) && SelectionIndependent(f, BaseCurrent(f), risk) &&
    RulesRevalidated(f, LaterCurrent(f), risk)
  }

  ghost predicate CoreGates(f: Facts, risk: Risk) {
    GatesVerified(f) && GatesCarry(f, risk) && Counterclaims(f, risk)
  }

  /** The weighing without what follows from the rest. */
  ghost predicate Core(f: Facts, risk: Risk) {
    CoreRecords(f, risk) && CoreGates(f, risk) && StrictQuorum(f, risk)
  }

  lemma CoreRecordsMean(inputs: Inputs, f: Facts, risk: Risk)
    requires SameView(inputs, f, risk)
    ensures CoreRecords(f, risk) <==> RulesProven(inputs, risk) && SelectionHolds(inputs, risk)
  {
    RulesProvenMean(inputs, f, risk);
    SelectionMeans(inputs, f, risk);
  }

  lemma CoreGatesMean(inputs: Inputs, f: Facts, risk: Risk)
    requires SameView(inputs, f, risk)
    ensures CoreGates(f, risk) <==> forall gate <- inputs.gates :: GateHolds(inputs, gate, risk)
  {
    RanksMean(risk, risk);
    VerifiedMeans(inputs, f, risk);
    GatesMean(inputs, f, risk);
  }

  lemma StrictQuorumMeans(inputs: Inputs, f: Facts, risk: Risk)
    requires SameView(inputs, f, risk) && forall gate <- f.gates :: GateProven(Revalidated(f, gate), gate, risk)
    ensures StrictQuorum(f, risk) <==> (Serious(risk) ==> TwoClassesApart(inputs, risk))
  {
    RanksMean(risk, risk);
    QuorumMeans(inputs, f, risk);
  }

  lemma CoreMeans(inputs: Inputs, f: Facts, risk: Risk)
    requires SameView(inputs, f, risk)
    ensures Core(f, risk) <==> WellProven(inputs, risk)
  {
    CoreRecordsMean(inputs, f, risk);
    CoreGatesMean(inputs, f, risk);
    if CoreGates(f, risk) { StrictQuorumMeans(inputs, f, risk); }
  }

  /** What follows from the core once the ground is common. */
  ghost predicate Rest(f: Facts, risk: Risk) {
    && (forall id <- RuleIds(f) :: RuleCovered(BaseCurrent(f), id, risk))
    && Quorum(BaseParticipants(f, risk), risk)
    && (Rank(risk) >= 3 ==>
          |Classes(Round8Eligible(f, risk))| >= 2 && IndependentClassPair(Round8Eligible(f, risk)))
  }

  lemma BaseWeighs(f: Facts, risk: Risk)
    requires MandatoryGates(f) == f.gates
    ensures EvidenceAccepted(f, BaseCurrent(f), MandatoryGates(f), RuleIds(f), risk) <==>
      && RolesCovered(f, BaseCurrent(f), risk) && SelectionIndependent(f, BaseCurrent(f), risk)
      && (forall gate <- f.gates :: GateCovered(BaseCurrent(f), gate, risk))
      && (forall id <- RuleIds(f) :: RuleCovered(BaseCurrent(f), id, risk))
      && Quorum(BaseParticipants(f, risk), risk)
  {
  }

  lemma ProvenMeans(f: Facts, risk: Risk)
    requires forall gate <- f.gates :: gate.id in HardMandatory(f)
    ensures GatesProven(f, risk) <==> forall gate <- f.gates :: GateProven(Revalidated(f, gate), gate, risk)
  {
  }

  lemma QuorumsWeigh(f: Facts, risk: Risk)
    requires LaterRisk(f) == risk && forall gate <- f.gates :: QuorumMandatory(f, gate)
    ensures Round11Accepts(f) <==> StrictQuorum(f, risk)
    ensures Round8Accepts(f) <==>
      Counterclaims(f, risk) &&
      (Rank(risk) >= 3 ==>
         |Classes(Round8Eligible(f, risk))| >= 2 && IndependentClassPair(Round8Eligible(f, risk)))
  {
  }

  lemma CarriedGates(f: Facts, risk: Risk)
    requires forall gate <- f.gates :: gate.id in HardMandatory(f)
    ensures GatesCarry(f, risk) <==>
      GatesProven(f, risk) && forall gate <- f.gates :: GateCovered(BaseCurrent(f), gate, risk)
  {
    ProvenMeans(f, risk);
  }

  lemma LayersGiveCore(f: Facts, risk: Risk)
    requires MandatoryGates(f) == f.gates && LaterRisk(f) == risk && LayersWeigh(f, risk)
    requires forall gate <- f.gates :: gate.id in HardMandatory(f) && QuorumMandatory(f, gate)
    ensures Core(f, risk) && Rest(f, risk)
  {
    BaseWeighs(f, risk);
    CarriedGates(f, risk);
    QuorumsWeigh(f, risk);
  }

  lemma CoreGivesLayers(f: Facts, risk: Risk)
    requires MandatoryGates(f) == f.gates && LaterRisk(f) == risk && Core(f, risk) && Rest(f, risk)
    requires forall gate <- f.gates :: gate.id in HardMandatory(f) && QuorumMandatory(f, gate)
    ensures LayersWeigh(f, risk)
  {
    BaseWeighs(f, risk);
    CarriedGates(f, risk);
    QuorumsWeigh(f, risk);
  }

  /** Once the ground is common, the coverage of invariants and the two earlier quorums follow from the rest. */
  lemma RestFollows(f: Facts, risk: Risk)
    requires InvariantsEnforced(f) && DistinctIds(f) && BindingsSound(f) && LayersSeeImpact(f) && LaterRisk(f) == risk
    requires RulesRevalidated(f, LaterCurrent(f), risk) && StrictQuorum(f, risk)
    ensures Rest(f, risk)
  {
    CurrentEvidenceAgrees(f);
    RulesAreCovered(f, risk);
    if Rank(risk) >= 3 { EarlierQuorumsFollow(f, risk); }
  }

  lemma CoreIsEnough(f: Facts, risk: Risk)
    requires InvariantsEnforced(f) && DistinctIds(f) && BindingsSound(f) && LayersSeeImpact(f) && LaterRisk(f) == risk
    requires MandatoryGates(f) == f.gates
    requires forall gate <- f.gates :: gate.id in HardMandatory(f) && QuorumMandatory(f, gate)
    ensures LayersWeigh(f, risk) <==> Core(f, risk)
  {
    if LayersWeigh(f, risk) { LayersGiveCore(f, risk); }
    if Core(f, risk) {
      RestFollows(f, risk);
      CoreGivesLayers(f, risk);
    }
  }

  /** The verdicts of policy and layers meet in the core. */
  lemma WeighingAgrees(inputs: Inputs, f: Facts, risk: Risk)
    requires LayersGround(inputs, f) && SameView(inputs, f, risk)
    ensures LayersWeigh(f, risk) <==> WellProven(inputs, risk)
  {
    CoreIsEnough(f, risk);
    CoreMeans(inputs, f, risk);
  }

  /**
   Four layers, one policy: whatever the request, all layers accept it exactly when the policy allows it. In an
   accepted request every gate is mandatory, every record is a bound one, and the quorums of the base layer and of
   round 8 follow from the strict one.
   */
  lemma FourLayersAreOnePolicy(inputs: Inputs)
    ensures AllLayersAccept(inputs) <==> Allowed(inputs)
  {
    match inputs.snapshot.risk
    case None =>
    case Some(risk) =>
      var f := FactsOf(inputs);
      AcceptanceSplits(inputs, f, risk);
      GroundMeans(inputs, risk);
      if WellFormed(inputs, risk) {
        GroundGivesSameView(inputs, risk);
        WeighingAgrees(inputs, f, risk);
      }
  }

  /** The verdict, for every request: Block unless the policy allows it, and the owner's for a protected action. */
  lemma VerdictExactly(inputs: Inputs, screensClear: bool)
    ensures VerdictOf(inputs, screensClear) ==
      if !screensClear || !Allowed(inputs) then Block
      else if inputs.protection == Some(true) then OwnerRequired
      else Allow
  {
    FourLayersAreOnePolicy(inputs);
  }

  /**
   No stale evidence: unless the verdict is BLOCK, every bound record was taken for this commit and target, within its
   class's time to live, and its fingerprint of every trigger of its class is the trigger's current, non-empty state.
   */
  lemma AcceptedEvidenceIsFresh(inputs: Inputs, screensClear: bool, binding: Binding) returns (evidence: Evidence)
    requires VerdictOf(inputs, screensClear) != Block && binding in inputs.snapshot.bindings
    ensures inputs.attestation.Some? && evidence in inputs.attestation.value.evidence && evidence.id == binding.id
    ensures evidence.commit == binding.commit == inputs.head && evidence.target == binding.target == inputs.target
    ensures !evidence.invalidated && evidence.fingerprint == inputs.fingerprint && evidence.observedAt.Some?
    ensures evidence.class_ in inputs.policy && inputs.trigger.Some?
    ensures var policy := inputs.policy[evidence.class_];
      && (policy.ttlHours.Some? ==> inputs.now - evidence.observedAt.value <= policy.ttlHours.value * 60.0)
      && forall trigger <- policy.triggers ::
           var state := inputs.trigger.value.state;
           trigger in state && state[trigger] != "" &&
           trigger in evidence.fingerprints && evidence.fingerprints[trigger] == state[trigger]
  {
    VerdictExactly(inputs, screensClear);
    evidence :| evidence in Attested(inputs) && evidence.id == binding.id && Trustworthy(inputs, evidence, binding);
    forall trigger | trigger in inputs.policy[evidence.class_].triggers
      ensures Unchanged(inputs, evidence, trigger)
    {
    }
  }
}
