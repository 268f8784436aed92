/**
 What each evaluator layer accepts, every layer with its own computation of current evidence,
 mandatory gates, effective risk and eligible records, as in its own source file.
 */
module ReleaseLayers {
  import opened ReleaseRecords

  const REQUIRED_INVARIANTS: set<string> := set n | 1 <= n <= 12 :: InvariantName(n)

  function Digit(n: int): string {
    ["0123456789"[if 0 <= n <= 9 then n else 0]]
  }

  function InvariantName(n: int): string {
    "FM-INV-0" + Digit(n / 10) + Digit(n % 10)
  }

  function ContractIds(f: Facts): set<string> {
    set contract <- f.contracts :: contract.id
  }

  // =====================================================================================
  // Base layer (scripts/_fanmind_release_decision_base.py)
  // =====================================================================================

  /** `_required_gate_ids` together with the explicitly applicable gates. */
  function BaseMandatory(f: Facts): set<string> {
    (set mapping <- f.mappings, gate <- mapping.gates | mapping.contract in f.affected :: gate) +
    (set gate <- f.gates | gate.applicable :: gate.id)
  }

  /** `_validate_bound_evidence` finds nothing wrong with one bound record. */
  predicate Sound(f: Facts, evidence: Evidence, binding: Binding) {
    CurrentStatus(evidence.status) &&
    !(evidence.roles == {Implementation} && (evidence.status.Accepted? || evidence.status.ProductionConfirmed?)) &&
    evidence.commit == f.head && binding.commit == f.head &&
    evidence.target == f.target && binding.target == f.target &&
    !evidence.invalidated &&
    evidence.class_ != "" && PolicyUsable(f.policy, evidence.class_) &&
    evidence.observedAt.Some? && evidence.observedAt.value <= f.now + 5.0 &&
    (f.policy[evidence.class_].ttlHours.Some? ==>
       f.now - evidence.observedAt.value <= f.policy[evidence.class_].ttlHours.value * 60.0) &&
    (forall trigger <- f.policy[evidence.class_].triggers :: TriggerFresh(evidence, trigger, f.state)) &&
    evidence.fingerprint == f.fingerprint && evidence.roles != {} && evidence.provenance.Some?
  }

  /** The base evaluator's `valid` records. */
  function BaseCurrent(f: Facts): set<Evidence> {
    set evidence <- f.evidence
      | exists binding <- f.bindings :: binding.id == evidence.id && Sound(f, evidence, binding)
  }

  predicate InvariantsEnforced(f: Facts) {
    RuleIds(f) == REQUIRED_INVARIANTS && forall rule <- f.invariants :: rule.required && rule.enforced
  }

  predicate ContractsInScope(f: Facts) {
    f.affected != {} && f.affected == ContractIds(f) && forall contract <- f.contracts :: contract.active
  }

  predicate MappingUsable(mapping: Mapping) {
    mapping.gates != [] && "" !in mapping.gates
  }

  predicate ImpactMapped(f: Facts) {
    forall id <- f.affected :: exists mapping <- f.mappings :: mapping.contract == id && MappingUsable(mapping)
  }

  predicate GatesVerified(f: Facts) {
    forall id <- BaseMandatory(f) :: exists gate <- f.gates :: gate.id == id && gate.verified
  }

  /** The declared risk reaches every affected contract's floor. */
  predicate RiskAboveContracts(f: Facts) {
    f.risk.Some? &&
    forall contract <- f.contracts | contract.id in f.affected ::
      contract.minimumRisk.Some? && Rank(contract.minimumRisk.value) <= Rank(f.risk.value)
  }

  predicate BindingsSound(f: Facts) {
    forall binding <- f.bindings ::
      exists evidence <- f.evidence :: evidence.id == binding.id && Sound(f, evidence, binding)
  }

  /** `evidence` is the record the snapshot selects for `role`. */
  predicate SelectedFor(f: Facts, role: Role, evidence: Evidence) {
    role in f.selected && f.selected[role] == evidence.id && role in evidence.roles
  }

  function WithRole(records: set<Evidence>, role: Role): set<Evidence> {
    set evidence <- records | role in evidence.roles
  }

  function SelectedRecords(f: Facts, valid: set<Evidence>, role: Role): set<Evidence> {
    set evidence <- valid | SelectedFor(f, role, evidence)
  }

  predicate RolesCovered(f: Facts, valid: set<Evidence>, risk: Risk) {
    (forall role <- RequiredRoles(risk) :: WithRole(valid, role) != {}) &&
    (forall role <- RequiredRoles(risk) | HasField(role) :: SelectedRecords(f, valid, role) != {})
  }

  predicate SelectionIndependent(f: Facts, valid: set<Evidence>, risk: Risk) {
    (Rank(risk) >= 2 ==>
       AnyIndependent(SelectedRecords(f, valid, Implementation), SelectedRecords(f, valid, Countercheck))) &&
    (Rank(risk) >= 3 ==>
      Negative in f.selected && Recovery in f.selected && f.selected[Negative] != f.selected[Recovery])
  }

  function GateRecords(valid: set<Evidence>, gate: string, role: Role): set<Evidence> {
    set evidence <- valid | role in evidence.roles && gate in evidence.gates
  }

  predicate GateCovered(valid: set<Evidence>, gate: Gate, risk: Risk) {
    GateRoles(gate, risk).Some? &&
    var roles := GateRoles(gate, risk).value;
    (forall role <- roles :: GateRecords(valid, gate.id, role) != {}) &&
    (Implementation in roles && Countercheck in roles ==>
       AnyIndependent(GateRecords(valid, gate.id, Implementation), GateRecords(valid, gate.id, Countercheck))) &&
    (Negative in roles && Recovery in roles ==>
       GateRecords(valid, gate.id, Negative) * GateRecords(valid, gate.id, Recovery) == {})
  }

  predicate RuleCovered(valid: set<Evidence>, rule: string, risk: Risk) {
    exists evidence <- valid :: rule in evidence.invariants && evidence.roles * RequiredRoles(risk) != {}
  }

  /** The record is bound to the gate and carries one of its roles. */
  predicate BoundInRole(evidence: Evidence, gate: Gate, risk: Risk) {
    GateRoles(gate, risk).Some? && gate.id in evidence.gates && evidence.roles * GateRoles(gate, risk).value != {}
  }

  /** The record takes part in the base quorum: selected, bound to a gate role, or bound to an invariant. */
  predicate BaseParticipates(f: Facts, evidence: Evidence, gates: set<Gate>, rules: set<string>, risk: Risk) {
    (exists role <- RequiredRoles(risk) :: HasField(role) && SelectedFor(f, role, evidence)) ||
    (exists gate <- gates :: BoundInRole(evidence, gate, risk)) ||
    (exists rule <- rules :: rule in evidence.invariants && evidence.roles * RequiredRoles(risk) != {})
  }

  function Classes(records: set<Evidence>): set<string> {
    set evidence <- records | evidence.class_ != "" :: evidence.class_
  }

  /** Two records of different classes that are independent of each other. */
  predicate IndependentClassPair(records: set<Evidence>) {
    exists a <- records, b <- records :: a.class_ != b.class_ && Independent(a, b)
  }

  predicate Quorum(records: set<Evidence>, risk: Risk) {
    if Rank(risk) >= 3 then |Classes(records)| >= 2 && IndependentClassPair(records) else |Classes(records)| >= 1
  }

  /** The records of the base quorum among `valid`. */
  function Participants(f: Facts, valid: set<Evidence>, gates: set<Gate>, rules: set<string>,
                        risk: Risk): set<Evidence>
  {
    set evidence <- valid | BaseParticipates(f, evidence, gates, rules, risk)
  }

  /** The second half of `_validate_bound_evidence`, for given valid records, mandatory gates and invariants. */
  predicate EvidenceAccepted(f: Facts, valid: set<Evidence>, gates: set<Gate>, rules: set<string>, risk: Risk) {
    RolesCovered(f, valid, risk) && SelectionIndependent(f, valid, risk) &&
    (forall gate <- gates :: GateCovered(valid, gate, risk)) &&
    (forall rule <- rules :: RuleCovered(valid, rule, risk)) &&
    Quorum(Participants(f, valid, gates, rules, risk), risk)
  }

  function MandatoryGates(f: Facts): set<Gate> {
    set gate <- f.gates | gate.id in BaseMandatory(f)
  }

  function RuleIds(f: Facts): set<string> {
    set rule <- f.invariants :: rule.id
  }

  function BaseParticipants(f: Facts, risk: Risk): set<Evidence> {
    Participants(f, BaseCurrent(f), MandatoryGates(f), RuleIds(f), risk)
  }

  predicate BaseAccepts(f: Facts) {
    InvariantsEnforced(f) && ContractsInScope(f) && ImpactMapped(f) && GatesVerified(f) && RiskAboveContracts(f) &&
    BindingsSound(f) && EvidenceAccepted(f, BaseCurrent(f), MandatoryGates(f), RuleIds(f), f.risk.value)
  }

  // =====================================================================================
  // Hardening layer (scripts/fanmind_release_decision_core_legacy.py)
  // =====================================================================================

  /** `_entry_is_current_for_hardening`. */
  predicate CurrentForHardening(f: Facts, evidence: Evidence, binding: Binding) {
    CurrentStatus(evidence.status) &&
    evidence.commit == f.head && binding.commit == f.head &&
    evidence.target == f.target && binding.target == f.target &&
    !evidence.invalidated && evidence.fingerprint == f.fingerprint && evidence.provenance.Some? &&
    evidence.class_ != "" && PolicyUsable(f.policy, evidence.class_) &&
    evidence.observedAt.Some? && evidence.observedAt.value <= f.now + 5.0 &&
    (f.policy[evidence.class_].ttlHours.Some? ==>
       f.now - evidence.observedAt.value <= f.policy[evidence.class_].ttlHours.value * 60.0) &&
    forall trigger <- f.policy[evidence.class_].triggers :: TriggerFresh(evidence, trigger, f.state)
  }

  /** `current_entries`: the records the later layers build on. */
  function LaterCurrent(f: Facts): set<Evidence> {
    set evidence <- f.evidence
      | exists binding <- f.bindings :: binding.id == evidence.id && CurrentForHardening(f, evidence, binding)
  }

  /** The gates that name the contract themselves. */
  function AuthoritativeGates(f: Facts, contract: string): set<string> {
    set gate <- f.gates | Configured(gate.contracts) && contract in gate.contracts && contract in ContractIds(f) ::
      gate.id
  }

  function HardMandatory(f: Facts): set<string> {
    (set gate <- f.gates | gate.applicable :: gate.id) +
    (set contract <- f.affected, gate <- AuthoritativeGates(f, contract) :: gate)
  }

  function ContractRisks(f: Facts): set<Risk> {
    set contract <- f.contracts | contract.id in f.affected && contract.minimumRisk.Some? :: contract.minimumRisk.value
  }

  function InvariantRisks(f: Facts): set<Risk> {
    set rule <- f.invariants | rule.required && rule.risk.Some? :: rule.risk.value
  }

  /** The effective risk as the hardening and quorum layers compute it. */
  function LaterRisk(f: Facts): Risk {
    var floor := Higher(Highest(ContractRisks(f)), Highest(InvariantRisks(f)));
    if f.risk.Some? then Higher(floor, f.risk.value) else floor
  }

  predicate RuleConfigured(rule: Invariant) {
    rule.risk.Some? && Configured(rule.triggers)
  }

  /** Some current record that names the invariant, with a role that counts, proves its triggers. */
  predicate RuleRevalidated(f: Facts, current: set<Evidence>, rule: Invariant, risk: Risk) {
    exists evidence <- current ::
      rule.id in evidence.invariants && evidence.roles * RequiredRoles(risk) != {} &&
      MatchesTriggers(evidence, rule.triggers, f.state)
  }

  predicate RulesRevalidated(f: Facts, current: set<Evidence>, risk: Risk) {
    forall rule <- f.invariants | rule.required :: RuleConfigured(rule) && RuleRevalidated(f, current, rule, risk)
  }

  predicate ContractTriggersConfigured(f: Facts) {
    forall contract <- f.contracts | contract.id in f.affected && contract.triggers.Some? ::
      Configured(contract.triggers.value)
  }

  predicate GateContractsConfigured(f: Facts) {
    forall gate <- f.gates :: Configured(gate.contracts) && forall id <- gate.contracts :: id in ContractIds(f)
  }

  /** The impact map and the gate registry describe the same boundary. */
  predicate MapsAgree(f: Facts) {
    forall mapping <- f.mappings | mapping.contract in f.affected && MappingUsable(mapping) ::
      AsSet(mapping.gates) == AuthoritativeGates(f, mapping.contract)
  }

  predicate RiskAboveInvariants(f: Facts) {
    f.risk.Some? ==> Rank(Highest(InvariantRisks(f))) <= Rank(f.risk.value)
  }

  /** The record satisfies the contract's own triggers; a contract without triggers asks for nothing. */
  predicate ContractFresh(f: Facts, evidence: Evidence, contract: Contract) {
    contract.triggers.Some? ==>
      Configured(contract.triggers.value) && MatchesTriggers(evidence, contract.triggers.value, f.state)
  }

  /** The record is bound to the gate and fresh for every affected contract behind it. */
  predicate FullyRevalidated(f: Facts, evidence: Evidence, gate: Gate) {
    evidence in LaterCurrent(f) && gate.id in evidence.gates &&
    forall id <- gate.contracts | id in f.affected ::
      exists contract <- f.contracts :: contract.id == id && ContractFresh(f, evidence, contract)
  }

  function Revalidated(f: Facts, gate: Gate): set<Evidence> {
    set evidence <- LaterCurrent(f) | FullyRevalidated(f, evidence, gate)
  }

  predicate Claims(evidence: Evidence, gate: string, requirement: string) {
    gate in evidence.requirements && Configured(evidence.requirements[gate]) &&
    requirement in evidence.requirements[gate]
  }

  predicate RequirementCovered(revalidated: set<Evidence>, gate: Gate, requirement: string) {
    requirement in gate.requirementRoles &&
    exists evidence <- revalidated ::
      gate.requirementRoles[requirement] in evidence.roles && Claims(evidence, gate.id, requirement)
  }

  /** The semantic proof contract of one mandatory gate, from its fully revalidated records. */
  predicate GateProven(revalidated: set<Evidence>, gate: Gate, risk: Risk) {
    Configured(gate.requirements) && GateRoles(gate, risk).Some? &&
    var roles := GateRoles(gate, risk).value;
    (forall role <- roles :: WithRole(revalidated, role) != {}) &&
    (Rank(risk) >= 2 ==> AnyIndependent(WithRole(revalidated, Implementation), WithRole(revalidated, Countercheck))) &&
    gate.requirementRoles.Keys == AsSet(gate.requirements) &&
    (forall requirement <- gate.requirementRoles :: gate.requirementRoles[requirement] in roles) &&
    forall requirement <- gate.requirements :: RequirementCovered(revalidated, gate, requirement)
  }

  predicate GatesProven(f: Facts, risk: Risk) {
    forall gate <- f.gates | gate.id in HardMandatory(f) :: GateProven(Revalidated(f, gate), gate, risk)
  }

  predicate HardeningAccepts(f: Facts) {
    RulesRevalidated(f, LaterCurrent(f), LaterRisk(f)) && ContractTriggersConfigured(f) &&
    GateContractsConfigured(f) && MapsAgree(f) &&
    RiskAboveInvariants(f) && GatesProven(f, LaterRisk(f))
  }

  // =====================================================================================
  // Quorum layers (scripts/fanmind_release_decision_core_round8.py and ..._round11.py)
  // =====================================================================================

  /** Mandatory gates as the quorum layers select them, straight from the gate registry. */
  predicate QuorumMandatory(f: Facts, gate: Gate) {
    gate.applicable || (Configured(gate.contracts) && exists id <- gate.contracts :: id in f.affected)
  }

  /** Here a contract without configured triggers is never fresh. */
  predicate StrictlyFresh(f: Facts, evidence: Evidence, id: string) {
    exists contract <- f.contracts ::
      contract.id == id && contract.triggers.Some? && Configured(contract.triggers.value) &&
      MatchesTriggers(evidence, contract.triggers.value, f.state)
  }

  /** The contracts a gate counts for: none when its contract list is unusable. */
  predicate BehindGate(f: Facts, gate: Gate, id: string) {
    Configured(gate.contracts) && id in gate.contracts && id in f.affected
  }

  predicate StrictlyFreshForGate(f: Facts, evidence: Evidence, gate: Gate) {
    forall id <- gate.contracts | BehindGate(f, gate, id) :: StrictlyFresh(f, evidence, id)
  }

  /** `entry_gate_ids`. */
  predicate TouchesGate(f: Facts, evidence: Evidence, gate: Gate) {
    gate in f.gates && QuorumMandatory(f, gate) && gate.id in evidence.gates
  }

  /** `this_gate_revalidated`. */
  predicate GateRevalidated(f: Facts, evidence: Evidence, gate: Gate, risk: Risk) {
    GateRoles(gate, risk).Some? && evidence.roles * GateRoles(gate, risk).value != {} &&
    StrictlyFreshForGate(f, evidence, gate)
  }

  /** The record claims a requirement of the gate in the requirement's own role. */
  predicate ClaimsAt(evidence: Evidence, gate: Gate) {
    Configured(gate.requirements) &&
    exists requirement <- gate.requirements ::
      requirement in gate.requirementRoles && gate.requirementRoles[requirement] in evidence.roles &&
      Claims(evidence, gate.id, requirement)
  }

  /** `qualifying_gate_requirement`: a role-bound claim on some revalidated gate. */
  predicate ClaimsSomething(f: Facts, evidence: Evidence, risk: Risk) {
    exists gate <- f.gates ::
      TouchesGate(f, evidence, gate) && GateRevalidated(f, evidence, gate, risk) && ClaimsAt(evidence, gate)
  }

  /** `gate_revalidated`: every touched gate has usable roles and fresh contracts. */
  predicate AllGatesFresh(f: Facts, evidence: Evidence, risk: Risk) {
    forall gate <- f.gates | TouchesGate(f, evidence, gate) ::
      GateRoles(gate, risk).Some? && StrictlyFreshForGate(f, evidence, gate)
  }

  /** `entry_invariant_ids`: required invariants with configured triggers that the record names. */
  predicate TouchesRule(f: Facts, evidence: Evidence, rule: Invariant) {
    rule in f.invariants && rule.required && Configured(rule.triggers) && rule.id in evidence.invariants
  }

  predicate AllRulesFresh(f: Facts, evidence: Evidence) {
    forall rule <- f.invariants | TouchesRule(f, evidence, rule) :: MatchesTriggers(evidence, rule.triggers, f.state)
  }

  predicate SelectedSomewhere(f: Facts, evidence: Evidence) {
    exists role <- {Implementation, Countercheck, Negative, Recovery} :: SelectedFor(f, role, evidence)
  }

  predicate TouchesAnyGate(f: Facts, evidence: Evidence) {
    exists gate <- f.gates :: TouchesGate(f, evidence, gate)
  }

  predicate TouchesAnyRule(f: Facts, evidence: Evidence) {
    exists rule <- f.invariants :: TouchesRule(f, evidence, rule)
  }

  predicate QualifyingRule(f: Facts, evidence: Evidence, risk: Risk) {
    TouchesAnyRule(f, evidence) && evidence.roles * RequiredRoles(risk) != {}
  }

  predicate Round8Participates(f: Facts, evidence: Evidence, risk: Risk) {
    ClaimsSomething(f, evidence, risk) || SelectedSomewhere(f, evidence) || QualifyingRule(f, evidence, risk)
  }

  /**
   A gate-bound record may not fall back on its invariant labels, and a selected record must be bound to something.
   */
  predicate Round11Participates(f: Facts, evidence: Evidence, risk: Risk) {
    ClaimsSomething(f, evidence, risk) ||
    (!TouchesAnyGate(f, evidence) && QualifyingRule(f, evidence, risk)) ||
    ((TouchesAnyGate(f, evidence) || TouchesAnyRule(f, evidence)) && SelectedSomewhere(f, evidence))
  }

  predicate FullyFresh(f: Facts, evidence: Evidence, risk: Risk) {
    AllGatesFresh(f, evidence, risk) && AllRulesFresh(f, evidence)
  }

  function Round8Eligible(f: Facts, risk: Risk): set<Evidence> {
    set evidence <- LaterCurrent(f) | Round8Participates(f, evidence, risk) && FullyFresh(f, evidence, risk)
  }

  function Round11Eligible(f: Facts, risk: Risk): set<Evidence> {
    set evidence <- LaterCurrent(f) | Round11Participates(f, evidence, risk) && FullyFresh(f, evidence, risk)
  }

  /** `fully_revalidated_by_gate`. */
  function GateHolders(f: Facts, gate: Gate, risk: Risk): set<Evidence> {
    set evidence <- LaterCurrent(f) | gate.id in evidence.gates && GateRevalidated(f, evidence, gate, risk)
  }

  function Claimers(holders: set<Evidence>, gate: string, requirement: string): set<Evidence> {
    set evidence <- WithRole(holders, Countercheck) | Claims(evidence, gate, requirement)
  }

  /** A countercheck claim is carried by a record independent of some implementation record of the gate. */
  predicate CounterclaimsIndependent(holders: set<Evidence>, gate: Gate) {
    Configured(gate.requirements) ==>
    forall requirement <- gate.requirements |
      requirement in gate.requirementRoles && gate.requirementRoles[requirement].Countercheck? ::
        Claimers(holders, gate.id, requirement) == {} || WithRole(holders, Implementation) == {} ||
        AnyIndependent(WithRole(holders, Implementation), Claimers(holders, gate.id, requirement))
  }

  predicate Round8Accepts(f: Facts) {
    var risk := LaterRisk(f);
    Rank(risk) >= 3 ==>
      (forall gate <- f.gates | QuorumMandatory(f, gate) ::
        CounterclaimsIndependent(GateHolders(f, gate, risk), gate)) &&
      |Classes(Round8Eligible(f, risk))| >= 2 && IndependentClassPair(Round8Eligible(f, risk))
  }

  predicate Round11Accepts(f: Facts) {
    var risk := LaterRisk(f);
    Rank(risk) >= 3 ==> |Classes(Round11Eligible(f, risk))| >= 2 && IndependentClassPair(Round11Eligible(f, risk))
  }

  // =====================================================================================
  // The whole chain
  // =====================================================================================

  /** The snapshot switches are clear and the declared protection matches the operation and target. */
  predicate SwitchesAccepted(inputs: Inputs) {
    inputs.snapshot.switchesClear && inputs.protection.Some? &&
    inputs.snapshot.declaredProtected == inputs.protection.value
  }

  /** Both protected documents are authentic and agree on the trigger state. */
  predicate Authenticated(inputs: Inputs) {
    inputs.attestation.Some? && inputs.attestation.value.authentic &&
    StateValid(inputs.attestation.value.triggerState) &&
    inputs.trigger.Some? && inputs.trigger.value.authentic && StateValid(inputs.trigger.value.state) &&
    (inputs.attestation.value.triggerState == map[] || inputs.trigger.value.state == map[] ||
     inputs.attestation.value.triggerState == inputs.trigger.value.state)
  }

  /** The evidence is evaluated for exactly this commit, target and control plane. */
  predicate CommitBound(inputs: Inputs) {
    |inputs.head| == 40 && inputs.target != "" && |inputs.fingerprint| == 64 &&
    inputs.snapshot.evaluatedCommit == inputs.head && inputs.snapshot.evaluatedTarget == inputs.target
  }

  predicate RequestAccepted(inputs: Inputs) {
    SwitchesAccepted(inputs) && Authenticated(inputs) && CommitBound(inputs)
  }

  /** Every layer is content. */
  ghost predicate AllLayersAccept(inputs: Inputs) {
    var f := FactsOf(inputs);
    Unambiguous(inputs) && RequestAccepted(inputs) && BaseAccepts(f) && HardeningAccepts(f) && Round8Accepts(f) &&
    Round11Accepts(f)
  }

  datatype Verdict = Block | Allow | OwnerRequired

  /** The verdict of the whole chain; `screensClear` says that none of the early screens between the layers blocked. */
  ghost function VerdictOf(inputs: Inputs, screensClear: bool): Verdict {
    if !screensClear || !AllLayersAccept(inputs) then Block
    else if inputs.protection.value then OwnerRequired
    else Allow
  }
}
