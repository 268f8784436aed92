/** What a verdict other than BLOCK guarantees, and why the layers cannot disagree when they all accept. */
module ReleaseProperties {
  import opened ReleaseRecords
  import opened ReleaseLayers

  // ----- lists and sets -----

  lemma UniqueGivesDistinct<T(!new)>(items: seq<T>, idOf: T -> string)
    requires UniqueRegistry(items, idOf)
    ensures forall a <- AsSet(items), b <- AsSet(items) :: idOf(a) == idOf(b) ==> a == b
  {
  }

  lemma AcceptedIdsAreDistinct(inputs: Inputs)
    requires Unambiguous(inputs)
    ensures DistinctIds(FactsOf(inputs))
  {
    UniqueGivesDistinct(inputs.invariants, InvariantId);
    UniqueGivesDistinct(inputs.gates, GateId);
    UniqueGivesDistinct(inputs.contracts, ContractId);
    UniqueGivesDistinct(inputs.mappings, MappingId);
    UniqueGivesDistinct(EvidenceOf(inputs), EvidenceId);
    UniqueGivesDistinct(inputs.snapshot.bindings, BindingId);
    assert forall a <- FactsOf(inputs).invariants :: InvariantId(a) == a.id;
    assert forall a <- FactsOf(inputs).gates :: GateId(a) == a.id;
    assert forall a <- FactsOf(inputs).contracts :: ContractId(a) == a.id;
    assert forall a <- FactsOf(inputs).mappings :: MappingId(a) == a.contract;
    assert forall a <- FactsOf(inputs).evidence :: EvidenceId(a) == a.id;
    assert forall a <- FactsOf(inputs).bindings :: BindingId(a) == a.id;
  }

  // ----- the layers agree -----

  /** The base evaluator's valid records and the later layers' current records are the same records. */
  lemma CurrentEvidenceAgrees(f: Facts)
    requires DistinctIds(f) && BindingsSound(f)
    ensures BaseCurrent(f) == LaterCurrent(f)
    ensures forall binding <- f.bindings :: exists evidence <- BaseCurrent(f) :: evidence.id == binding.id
  {
    forall evidence | evidence in LaterCurrent(f) ensures evidence in BaseCurrent(f) {
      var binding :| binding in f.bindings && binding.id == evidence.id && CurrentForHardening(f, evidence, binding);
      var other :| other in f.evidence && other.id == binding.id && Sound(f, other, binding);
      assert other == evidence;
    }
    forall evidence | evidence in BaseCurrent(f) ensures evidence in LaterCurrent(f) {
      var binding :| binding in f.bindings && binding.id == evidence.id && Sound(f, evidence, binding);
      assert CurrentForHardening(f, evidence, binding);
    }
    forall binding | binding in f.bindings ensures exists evidence <- BaseCurrent(f) :: evidence.id == binding.id {
      var other :| other in f.evidence && other.id == binding.id && Sound(f, other, binding);
      assert other in BaseCurrent(f);
    }
  }

  /** For every affected contract the impact map lists exactly the gates that name the contract. */
  lemma ImpactMapIsExactInverse(f: Facts, mapping: Mapping, gate: Gate)
    requires DistinctIds(f) && ImpactMapped(f) && MapsAgree(f) && GateContractsConfigured(f)
    requires mapping in f.mappings && mapping.contract in f.affected && gate in f.gates
    ensures gate.id in mapping.gates <==> mapping.contract in gate.contracts
  {
    var usable :| usable in f.mappings && usable.contract == mapping.contract && MappingUsable(usable);
    assert usable == mapping;
    assert AsSet(mapping.gates) == AuthoritativeGates(f, mapping.contract);
    assert gate.id in mapping.gates <==> gate.id in AsSet(mapping.gates);
    if gate.id in AuthoritativeGates(f, mapping.contract) {
      var other :| other in f.gates && other.id == gate.id && mapping.contract in other.contracts;
      assert other == gate;
    }
  }

  /** The impact map, the inverted gate registry and the quorum layers select the same mandatory gates. */
  lemma MandatoryGatesAgree(f: Facts)
    requires DistinctIds(f) && ImpactMapped(f) && MapsAgree(f) && GateContractsConfigured(f)
    ensures BaseMandatory(f) == HardMandatory(f)
    ensures forall gate <- f.gates :: QuorumMandatory(f, gate) <==> gate.id in HardMandatory(f)
  {
    forall id | id in BaseMandatory(f) ensures id in HardMandatory(f) {
      if mapping :| mapping in f.mappings && mapping.contract in f.affected && id in mapping.gates {
        var usable :| usable in f.mappings && usable.contract == mapping.contract && MappingUsable(usable);
        assert usable == mapping && id in AsSet(mapping.gates);
        assert id in AuthoritativeGates(f, mapping.contract);
      }
    }
    forall id | id in HardMandatory(f) ensures id in BaseMandatory(f) {
      if contract :| contract in f.affected && id in AuthoritativeGates(f, contract) {
        var mapping :| mapping in f.mappings && mapping.contract == contract && MappingUsable(mapping);
        assert id in AsSet(mapping.gates);
      }
    }
    forall gate | gate in f.gates ensures QuorumMandatory(f, gate) <==> gate.id in HardMandatory(f) {
      QuorumMandatoryInverts(f, gate);
    }
  }

  lemma QuorumMandatoryInverts(f: Facts, gate: Gate)
    requires DistinctIds(f) && GateContractsConfigured(f) && gate in f.gates
    ensures QuorumMandatory(f, gate) <==> gate.id in HardMandatory(f)
  {
    if QuorumMandatory(f, gate) && !gate.applicable {
      var id :| id in gate.contracts && id in f.affected;
      assert gate.id in AuthoritativeGates(f, id);
    }
    if gate.id in HardMandatory(f) {
      if other :| other in f.gates && other.applicable && other.id == gate.id {
        assert other == gate;
      } else {
        var id :| id in f.affected && gate.id in AuthoritativeGates(f, id);
        var named :| named in f.gates && named.id == gate.id && id in named.contracts;
        assert named == gate;
      }
    }
  }

  lemma HighestBounds(risks: set<Risk>, bound: Risk)
    ensures Rank(Highest(risks)) <= Rank(bound) <==> forall risk <- risks :: Rank(risk) <= Rank(bound)
  {
  }

  /** All layers use the declared risk, and it reaches the floor of every contract and every invariant. */
  lemma EffectiveRiskAgrees(f: Facts)
    requires ContractsInScope(f) && RiskAboveContracts(f) && RiskAboveInvariants(f) && InvariantsEnforced(f)
    ensures LaterRisk(f) == f.risk.value
    ensures forall contract <- f.contracts ::
      contract.minimumRisk.Some? && Rank(contract.minimumRisk.value) <= Rank(f.risk.value)
    ensures forall rule <- f.invariants :: rule.risk.Some? ==> Rank(rule.risk.value) <= Rank(f.risk.value)
  {
    HighestBounds(ContractRisks(f), f.risk.value);
    HighestBounds(InvariantRisks(f), f.risk.value);
    assert forall rule <- f.invariants :: rule.risk.Some? ==> rule.risk.value in InvariantRisks(f);
    assert forall contract <- f.contracts :: contract.id in ContractIds(f);
  }

  /** When no layer blocks, all of them computed the same evidence, the same gates and the same risk. */
  lemma LayersAgree(inputs: Inputs)
    requires AllLayersAccept(inputs)
    ensures var f := FactsOf(inputs);
            BaseCurrent(f) == LaterCurrent(f) &&
            BaseMandatory(f) == HardMandatory(f) &&
            (forall gate <- f.gates :: QuorumMandatory(f, gate) <==> gate.id in BaseMandatory(f)) &&
            (forall mapping, gate :: mapping in f.mappings && mapping.contract in f.affected && gate in f.gates ==>
               (gate.id in mapping.gates <==> mapping.contract in gate.contracts)) &&
            LaterRisk(f) == f.risk.value &&
            (forall contract <- f.contracts ::
              contract.minimumRisk.Some? && Rank(contract.minimumRisk.value) <= Rank(f.risk.value)) &&
            (forall rule <- f.invariants :: rule.risk.Some? && Rank(rule.risk.value) <= Rank(f.risk.value))
  {
    var f := FactsOf(inputs);
    AcceptedIdsAreDistinct(inputs);
    CurrentEvidenceAgrees(f);
    MandatoryGatesAgree(f);
    EffectiveRiskAgrees(f);
    forall mapping, gate | mapping in f.mappings && mapping.contract in f.affected && gate in f.gates
      ensures gate.id in mapping.gates <==> mapping.contract in gate.contracts
    {
      ImpactMapIsExactInverse(f, mapping, gate);
    }
  }

  // ----- four eyes -----

  /** Every trigger has a current, non-empty state, and the record's fingerprint of it is that state. */
  predicate TakenInState(evidence: Evidence, triggers: seq<string>, state: map<string, string>) {
    forall trigger <- triggers ::
      trigger in state && state[trigger] != "" &&
      trigger in evidence.fingerprints && evidence.fingerprints[trigger] == state[trigger]
  }

  /** The record is current, bound to the gate, and fresh for every affected contract behind it. */
  predicate ProvesGate(f: Facts, evidence: Evidence, gate: Gate) {
    evidence in BaseCurrent(f) && gate.id in evidence.gates &&
    forall contract <- f.contracts | contract.id in gate.contracts && contract.id in f.affected &&
      contract.triggers.Some? ::
      TakenInState(evidence, contract.triggers.value, f.state)
  }

  lemma RevalidatedProves(f: Facts, evidence: Evidence, gate: Gate)
    requires DistinctIds(f) && BaseCurrent(f) == LaterCurrent(f) && FullyRevalidated(f, evidence, gate)
    ensures ProvesGate(f, evidence, gate)
  {
    forall contract | contract in f.contracts && contract.id in gate.contracts && contract.id in f.affected &&
      contract.triggers.Some?
      ensures TakenInState(evidence, contract.triggers.value, f.state)
    {
      var other :| other in f.contracts && other.id == contract.id && ContractFresh(f, evidence, other);
      assert other == contract;
    }
  }

  /** Two different, mutually independent records: one implementation and one countercheck for the gate. */
  ghost predicate FourEyes(f: Facts, gate: Gate) {
    exists maker <- BaseCurrent(f), checker <- BaseCurrent(f) ::
      maker != checker && Implementation in maker.roles && Countercheck in checker.roles &&
      ProvesGate(f, maker, gate) && ProvesGate(f, checker, gate) &&
      maker.provenance.Some? && checker.provenance.Some? &&
      maker.provenance.value.source != checker.provenance.value.source &&
      maker.provenance.value.execution != checker.provenance.value.execution &&
      maker.provenance.value.independence != checker.provenance.value.independence
  }

  /** Every requirement of the gate is claimed by a proving record that carries the requirement's own role. */
  ghost predicate RequirementsClaimed(f: Facts, gate: Gate) {
    forall requirement <- gate.requirements ::
      requirement in gate.requirementRoles &&
      exists evidence <- BaseCurrent(f) ::
        ProvesGate(f, evidence, gate) && gate.requirementRoles[requirement] in evidence.roles &&
        Claims(evidence, gate.id, requirement)
  }

  lemma ProvenGateHasFourEyes(f: Facts, gate: Gate, risk: Risk)
    requires DistinctIds(f) && BaseCurrent(f) == LaterCurrent(f) && GateProven(Revalidated(f, gate), gate, risk) &&
      Rank(risk) >= 2
    ensures FourEyes(f, gate)
  {
    var makers, checkers :=
      WithRole(Revalidated(f, gate), Implementation), WithRole(Revalidated(f, gate), Countercheck);
    assert AnyIndependent(makers, checkers);
    var maker, checker :| maker in makers && checker in checkers && Independent(maker, checker);
    RevalidatedProves(f, maker, gate);
    RevalidatedProves(f, checker, gate);
    assert maker in BaseCurrent(f) && checker in BaseCurrent(f) && maker != checker;
  }

  lemma ProvenGateHasClaims(f: Facts, gate: Gate, risk: Risk)
    requires DistinctIds(f) && BaseCurrent(f) == LaterCurrent(f) && GateProven(Revalidated(f, gate), gate, risk)
    ensures RequirementsClaimed(f, gate)
  {
    forall requirement | requirement in gate.requirements
      ensures requirement in gate.requirementRoles &&
        exists evidence <- BaseCurrent(f) ::
          ProvesGate(f, evidence, gate) && gate.requirementRoles[requirement] in evidence.roles &&
          Claims(evidence, gate.id, requirement)
    {
      assert RequirementCovered(Revalidated(f, gate), gate, requirement);
      var evidence :| evidence in Revalidated(f, gate) &&
        gate.requirementRoles[requirement] in evidence.roles && Claims(evidence, gate.id, requirement);
      RevalidatedProves(f, evidence, gate);
    }
  }

  /**
   Four-eyes guarantee: unless the verdict is BLOCK, at risk R2 or higher every mandatory gate exists, is
   verified, and is proven by two different records with disjoint provenance, one implementation and one
   countercheck, and all its requirements are claimed in their mapped roles.
   */
  lemma FourEyesGuarantee(inputs: Inputs, id: string)
    requires AllLayersAccept(inputs)
    requires id in BaseMandatory(FactsOf(inputs)) && Rank(inputs.snapshot.risk.value) >= 2
    ensures exists gate <- FactsOf(inputs).gates ::
      gate.id == id && gate.verified && FourEyes(FactsOf(inputs), gate) && RequirementsClaimed(FactsOf(inputs), gate)
  {
    var f := FactsOf(inputs);
    LayersAgree(inputs);
    AcceptedIdsAreDistinct(inputs);
    var gate :| gate in f.gates && gate.id == id && gate.verified;
    assert GateProven(Revalidated(f, gate), gate, LaterRisk(f));
    ProvenGateHasFourEyes(f, gate, LaterRisk(f));
    ProvenGateHasClaims(f, gate, LaterRisk(f));
  }

  // ----- quorum -----

  /** A stricter layer never counts a record that a weaker one rejects. */
  lemma Round11WithinRound8(f: Facts, risk: Risk)
    ensures Round11Eligible(f, risk) <= Round8Eligible(f, risk)
  {
  }

  lemma ClaimingRecordParticipates(f: Facts, evidence: Evidence, risk: Risk)
    requires ClaimsSomething(f, evidence, risk)
    requires forall gate <- f.gates :: QuorumMandatory(f, gate) ==> gate.id in BaseMandatory(f)
    ensures BaseParticipates(f, evidence, MandatoryGates(f), RuleIds(f), risk)
  {
    var gate :| gate in f.gates && TouchesGate(f, evidence, gate) && GateRevalidated(f, evidence, gate, risk);
    assert gate in MandatoryGates(f) && BoundInRole(evidence, gate, risk);
  }

  lemma SelectedRecordParticipates(f: Facts, evidence: Evidence, risk: Risk)
    requires SelectedSomewhere(f, evidence) && Rank(risk) >= 3
    ensures BaseParticipates(f, evidence, MandatoryGates(f), RuleIds(f), risk)
  {
    var role :| role in {Implementation, Countercheck, Negative, Recovery} && SelectedFor(f, role, evidence);
    assert role in RequiredRoles(risk) && HasField(role);
  }

  lemma Round8WithinBase(f: Facts, risk: Risk)
    requires BaseCurrent(f) == LaterCurrent(f) && Rank(risk) >= 3
    requires forall gate <- f.gates :: QuorumMandatory(f, gate) ==> gate.id in BaseMandatory(f)
    ensures Round8Eligible(f, risk) <= BaseParticipants(f, risk)
  {
    forall evidence | evidence in Round8Eligible(f, risk) ensures evidence in BaseParticipants(f, risk) {
      if ClaimsSomething(f, evidence, risk) {
        ClaimingRecordParticipates(f, evidence, risk);
      } else if SelectedSomewhere(f, evidence) {
        SelectedRecordParticipates(f, evidence, risk);
      } else {
        var rule :| rule in f.invariants && TouchesRule(f, evidence, rule);
        assert rule.id in evidence.invariants;
      }
    }
  }

  lemma {:induction false} SubsetCardinality<T>(small: set<T>, large: set<T>)
    requires small <= large
    ensures |small| <= |large|
  {
    if small != {} {
      var item :| item in small;
      SubsetCardinality(small - {item}, large - {item});
    }
  }

  lemma LargerQuorum(small: set<Evidence>, large: set<Evidence>)
    requires small <= large
    ensures |Classes(small)| <= |Classes(large)|
    ensures IndependentClassPair(small) ==> IndependentClassPair(large)
  {
    SubsetCardinality(Classes(small), Classes(large));
  }

  lemma EligibleRecordsNest(f: Facts, risk: Risk)
    requires DistinctIds(f) && BindingsSound(f) && ImpactMapped(f) && MapsAgree(f) && GateContractsConfigured(f)
    requires Rank(risk) >= 3
    ensures Round11Eligible(f, risk) <= Round8Eligible(f, risk) <= BaseParticipants(f, risk)
  {
    CurrentEvidenceAgrees(f);
    MandatoryGatesAgree(f);
    Round11WithinRound8(f, risk);
    Round8WithinBase(f, risk);
  }

  /**
   Quorum subsumption: at R3 and R4, once the base evidence checks and the map agreement hold, the strict
   quorum's records are among round 8's, which are among the base participants, so a passing strict
   quorum passes both earlier class and independence quorums.
   */
  lemma StrictQuorumSubsumes(f: Facts)
    requires DistinctIds(f) && BindingsSound(f) && ImpactMapped(f) && MapsAgree(f) && GateContractsConfigured(f)
    requires Rank(LaterRisk(f)) >= 3
    ensures Round11Eligible(f, LaterRisk(f)) <= Round8Eligible(f, LaterRisk(f)) <= BaseParticipants(f, LaterRisk(f))
    ensures Round11Accepts(f) ==>
      |Classes(Round8Eligible(f, LaterRisk(f)))| >= 2 && IndependentClassPair(Round8Eligible(f, LaterRisk(f))) &&
      Quorum(BaseParticipants(f, LaterRisk(f)), LaterRisk(f))
  {
    var risk := LaterRisk(f);
    EligibleRecordsNest(f, risk);
    LargerQuorum(Round11Eligible(f, risk), Round8Eligible(f, risk));
    LargerQuorum(Round8Eligible(f, risk), BaseParticipants(f, risk));
  }

  // ----- order does not matter -----

  /** The same request with its lists in another order. */
  ghost predicate Reordered(a: Inputs, b: Inputs) {
    multiset(a.invariants) == multiset(b.invariants) && multiset(a.gates) == multiset(b.gates) &&
    multiset(a.contracts) == multiset(b.contracts) && multiset(a.mappings) == multiset(b.mappings) &&
    multiset(EvidenceOf(a)) == multiset(EvidenceOf(b)) &&
    multiset(a.snapshot.bindings) == multiset(b.snapshot.bindings) &&
    multiset(a.snapshot.affected) == multiset(b.snapshot.affected) &&
    b == a.(invariants := b.invariants, gates := b.gates, contracts := b.contracts, mappings := b.mappings,
            attestation := b.attestation,
            snapshot := a.snapshot.(bindings := b.snapshot.bindings, affected := b.snapshot.affected)) &&
    a.attestation.Some? == b.attestation.Some? &&
    (a.attestation.Some? ==>
       b.attestation.value == a.attestation.value.(evidence := b.attestation.value.evidence))
  }

  lemma SameMembers<T(!new)>(a: seq<T>, b: seq<T>, idOf: T -> string)
    requires multiset(a) == multiset(b)
    ensures AsSet(a) == AsSet(b)
    ensures UniqueRegistry(a, idOf) <==> UniqueRegistry(b, idOf)
  {
    assert forall item :: item in a <==> item in multiset(a);
    assert forall item :: item in b <==> item in multiset(b);
  }

  /** Reordering the registries, the evidence, the bindings or the affected contracts never changes acceptance. */
  lemma AcceptanceIgnoresOrder(a: Inputs, b: Inputs)
    requires Reordered(a, b)
    ensures AllLayersAccept(a) <==> AllLayersAccept(b)
  {
    SameMembers(a.invariants, b.invariants, InvariantId);
    SameMembers(a.gates, b.gates, GateId);
    SameMembers(a.contracts, b.contracts, ContractId);
    SameMembers(a.mappings, b.mappings, MappingId);
    SameMembers(EvidenceOf(a), EvidenceOf(b), EvidenceId);
    SameMembers(a.snapshot.bindings, b.snapshot.bindings, BindingId);
    SameMembers(a.snapshot.affected, b.snapshot.affected, SelfId);
    assert FactsOf(a) == FactsOf(b);
  }

  /** The verdict is the same for every order of the lists. */
  lemma VerdictIgnoresOrder(a: Inputs, b: Inputs, screensClear: bool)
    requires Reordered(a, b)
    ensures VerdictOf(a, screensClear) == VerdictOf(b, screensClear)
  {
    AcceptanceIgnoresOrder(a, b);
  }
}
