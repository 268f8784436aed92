/**
 The release policy as one layer, written on the fields of the request alone, and the proof that the four layers
 together accept exactly the requests it allows.
 */
module ReleasePolicy {
  import opened Wrappers
  import opened ReleaseRecords

  // ----- words of the policy -----

  ghost predicate AtMost(low: Risk, high: Risk) {
    low == high || low.R1? || high.R4? || (low.R2? && high.R3?)
  }

  ghost predicate Serious(risk: Risk) { risk.R3? || risk.R4? }

  /** The roles every release of this risk needs. */
  ghost predicate Needed(risk: Risk, role: Role) {
    match role
    case Evidential => risk.R1?
    case Implementation => !risk.R1?
    case Countercheck => !risk.R1?
    case Negative => !risk.R1?
    case Recovery => Serious(risk)
    case OtherRole(_) => false
  }

  /** The roles a gate asks for: its own list, or those of the risk. */
  ghost predicate Asked(gate: Gate, risk: Risk, role: Role) {
    match gate.configuredRoles
    case None => Needed(risk, role)
    case Some(roles) => role in roles
  }

  /** Non-empty names, each once. */
  ghost predicate DistinctNames(names: seq<string>) {
    forall i :: 0 <= i < |names| ==> names[i] != "" && forall j :: 0 <= j < i ==> names[j] != names[i]
  }

  ghost predicate DistinctBy<T(!new)>(items: seq<T>, name: T -> string) {
    forall i :: 0 <= i < |items| ==> name(items[i]) != "" && forall j :: 0 <= j < i ==> name(items[j]) != name(items[i])
  }

  /** Two records that were made apart from each other: by source, by execution and by independence group. */
  ghost predicate Apart(a: Evidence, b: Evidence) {
    match (a.provenance, b.provenance)
    case (Some(p), Some(q)) =>
      p.source != q.source && p.execution != q.execution && p.independence != q.independence
    case _ => false
  }

  // ----- the documents -----

  /** The records the request submits. */
  ghost function Attested(inputs: Inputs): seq<Evidence> {
    match inputs.attestation
    case None => []
    case Some(attestation) => attestation.evidence
  }

  ghost predicate CleanState(state: map<string, string>) {
    forall key <- state :: key != "" && state[key] != ""
  }

  ghost predicate DocumentsAgree(inputs: Inputs) {
    match (inputs.attestation, inputs.trigger)
    case (Some(attestation), Some(trigger)) =>
      attestation.authentic && trigger.authentic && CleanState(attestation.triggerState) && CleanState(trigger.state) &&
      (attestation.triggerState == trigger.state || attestation.triggerState == map[] || trigger.state == map[])
    case _ => false
  }

  ghost predicate SnapshotMatches(inputs: Inputs) {
    && inputs.snapshot.switchesClear && inputs.protection == Some(inputs.snapshot.declaredProtected)
    && |inputs.head| == 40 && inputs.target != "" && |inputs.fingerprint| == 64
    && inputs.snapshot.evaluatedCommit == inputs.head && inputs.snapshot.evaluatedTarget == inputs.target
  }

  ghost predicate NothingTwice(inputs: Inputs) {
    && DistinctBy(inputs.invariants, (rule: Invariant) => rule.id)
    && DistinctBy(inputs.gates, (gate: Gate) => gate.id)
    && DistinctBy(inputs.contracts, (contract: Contract) => contract.id)
    && DistinctBy(inputs.mappings, (mapping: Mapping) => mapping.contract)
    && DistinctBy(Attested(inputs), (evidence: Evidence) => evidence.id)
    && DistinctBy(inputs.snapshot.bindings, (binding: Binding) => binding.id)
    && DistinctNames(inputs.snapshot.affected)
  }

  // ----- the registries -----

  const RULE_NAMES: set<string> := {
    "FM-INV-001", "FM-INV-002", "FM-INV-003", "FM-INV-004", "FM-INV-005", "FM-INV-006", "FM-INV-007", "FM-INV-008",
    "FM-INV-009", "FM-INV-010", "FM-INV-011", "FM-INV-012"}

  /** The twelve invariants, all required and enforced, none above the declared risk. */
  ghost predicate RulesInForce(inputs: Inputs, risk: Risk) {
    && (forall name :: name in RULE_NAMES <==> exists rule <- inputs.invariants :: rule.id == name)
    && forall rule <- inputs.invariants ::
         rule.required && rule.enforced && rule.triggers != [] && DistinctNames(rule.triggers) &&
         rule.risk.Some? && AtMost(rule.risk.value, risk)
  }

  /** Every contract is affected and active, and none is above the declared risk. */
  ghost predicate ContractsInForce(inputs: Inputs, risk: Risk) {
    && inputs.contracts != []
    && (forall id :: id in inputs.snapshot.affected <==> exists contract <- inputs.contracts :: contract.id == id)
    && forall contract <- inputs.contracts ::
         contract.active && contract.minimumRisk.Some? && AtMost(contract.minimumRisk.value, risk) &&
         (contract.triggers.Some? ==> contract.triggers.value != [] && DistinctNames(contract.triggers.value))
  }

  /** Gates and impact map describe one relation: a contract's row lists exactly the gates that name the contract. */
  ghost predicate OneImpactRelation(inputs: Inputs) {
    && (forall gate <- inputs.gates ::
          gate.contracts != [] && DistinctNames(gate.contracts) &&
          forall id <- gate.contracts :: exists contract <- inputs.contracts :: contract.id == id)
    && (forall contract <- inputs.contracts :: exists mapping <- inputs.mappings ::
          mapping.contract == contract.id && mapping.gates != [] &&
          (forall id :: id in mapping.gates <==>
            exists gate <- inputs.gates :: gate.id == id && contract.id in gate.contracts))
  }

  // ----- the evidence -----

  /** The trigger has a current state, and the record was taken in exactly that state. */
  ghost predicate Unchanged(inputs: Inputs, evidence: Evidence, trigger: string) {
    inputs.trigger.Some? &&
    var state := inputs.trigger.value.state;
    trigger in state && state[trigger] != "" &&
    trigger in evidence.fingerprints && evidence.fingerprints[trigger] == state[trigger]
  }

  ghost predicate AllUnchanged(inputs: Inputs, evidence: Evidence, triggers: seq<string>) {
    forall trigger <- triggers :: Unchanged(inputs, evidence, trigger)
  }

  /** A class has triggers, and a time to live between 0 and 876000 hours if it has one. */
  ghost predicate ClassUsable(class_: ClassPolicy) {
    && class_.triggers != [] && (forall trigger <- class_.triggers :: trigger != "")
    && (class_.ttlHours.Some? ==> 0.0 <= class_.ttlHours.value <= 876000.0)
  }

  /** Minutes: at most five ahead of the clock, and not older than the time to live. */
  ghost predicate InTime(inputs: Inputs, class_: ClassPolicy, observed: Option<real>) {
    && observed.Some? && observed.value <= inputs.now + 5.0
    && (class_.ttlHours.Some? ==> inputs.now - observed.value <= class_.ttlHours.value * 60.0)
  }

  /** What is asked of every record the request binds. */
  ghost predicate Trustworthy(inputs: Inputs, evidence: Evidence, binding: Binding) {
    && (evidence.status.Verified? || evidence.status.Counterchecked? ||
        ((evidence.status.Accepted? || evidence.status.ProductionConfirmed?) && evidence.roles != {Implementation}))
    && evidence.commit == inputs.head && binding.commit == inputs.head
    && evidence.target == inputs.target && binding.target == inputs.target
    && !evidence.invalidated && evidence.fingerprint == inputs.fingerprint
    && evidence.roles != {} && evidence.provenance.Some?
    && evidence.class_ != "" && evidence.class_ in inputs.policy && ClassUsable(inputs.policy[evidence.class_])
    && InTime(inputs, inputs.policy[evidence.class_], evidence.observedAt)
    && AllUnchanged(inputs, evidence, inputs.policy[evidence.class_].triggers)
  }

  ghost predicate EveryBindingTrustworthy(inputs: Inputs) {
    forall binding <- inputs.snapshot.bindings ::
      exists evidence <- Attested(inputs) :: evidence.id == binding.id && Trustworthy(inputs, evidence, binding)
  }

  /** The request rests on this record. */
  ghost predicate Bound(inputs: Inputs, evidence: Evidence) {
    evidence in Attested(inputs) && exists binding <- inputs.snapshot.bindings :: binding.id == evidence.id
  }

  ghost predicate NeededIn(evidence: Evidence, risk: Risk) {
    exists role <- evidence.roles :: Needed(risk, role)
  }

  /** Some bound record that names the invariant, in a needed role, was taken in the current state of its triggers. */
  ghost predicate RulesProven(inputs: Inputs, risk: Risk) {
    forall rule <- inputs.invariants :: exists evidence <- Attested(inputs) ::
      Bound(inputs, evidence) && rule.id in evidence.invariants && NeededIn(evidence, risk) &&
      AllUnchanged(inputs, evidence, rule.triggers)
  }

  /** The snapshot selects this record for the role. */
  ghost predicate Chosen(inputs: Inputs, role: Role, evidence: Evidence) {
    && (role.Implementation? || role.Countercheck? || role.Negative? || role.Recovery?)
    && role in inputs.snapshot.selected && inputs.snapshot.selected[role] == evidence.id && role in evidence.roles
  }

  ghost predicate SomeoneChosen(inputs: Inputs, role: Role) {
    exists evidence <- Attested(inputs) :: Bound(inputs, evidence) && Chosen(inputs, role, evidence)
  }

  ghost predicate MakerAndCheckerChosenApart(inputs: Inputs) {
    exists maker <- Attested(inputs), checker <- Attested(inputs) ::
      Bound(inputs, maker) && Bound(inputs, checker) && Chosen(inputs, Implementation, maker) &&
      Chosen(inputs, Countercheck, checker) && Apart(maker, checker)
  }

  ghost predicate SelectionHolds(inputs: Inputs, risk: Risk) {
    && (risk.R1? ==> exists evidence <- Attested(inputs) :: Bound(inputs, evidence) && Evidential in evidence.roles)
    && (!risk.R1? ==>
          (forall role: Role :: Needed(risk, role) ==> SomeoneChosen(inputs, role)) &&
          MakerAndCheckerChosenApart(inputs))
    && (Serious(risk) ==>
          Negative in inputs.snapshot.selected && Recovery in inputs.snapshot.selected &&
          inputs.snapshot.selected[Negative] != inputs.snapshot.selected[Recovery])
  }

  // ----- the gates -----

  ghost predicate Supports(inputs: Inputs, evidence: Evidence, gate: Gate) {
    Bound(inputs, evidence) && gate.id in evidence.gates
  }

  /** A bound record of the gate, taken in the current state of every contract behind the gate. */
  ghost predicate Proves(inputs: Inputs, evidence: Evidence, gate: Gate) {
    && Supports(inputs, evidence, gate)
    && forall contract <- inputs.contracts | contract.id in gate.contracts && contract.triggers.Some? ::
         AllUnchanged(inputs, evidence, contract.triggers.value)
  }

  /** The record claims the requirement for the gate. */
  ghost predicate States(evidence: Evidence, gate: Gate, requirement: string) {
    gate.id in evidence.requirements && DistinctNames(evidence.requirements[gate.id]) &&
    requirement in evidence.requirements[gate.id]
  }

  /** The record claims the requirement in the role to which the gate maps it. */
  ghost predicate StatesInRole(evidence: Evidence, gate: Gate, requirement: string) {
    requirement in gate.requirementRoles && gate.requirementRoles[requirement] in evidence.roles &&
    States(evidence, gate, requirement)
  }

  ghost predicate RolesUsable(gate: Gate, risk: Risk) {
    match gate.configuredRoles
    case None => true
    case Some(roles) =>
      (forall i, j :: 0 <= i < j < |roles| ==> roles[i] != roles[j]) &&
      (forall role <- roles :: !role.OtherRole?) &&
      forall role: Role :: Needed(risk, role) ==> role in roles
  }

  ghost predicate RoleProven(inputs: Inputs, gate: Gate, role: Role) {
    exists evidence <- Attested(inputs) :: Proves(inputs, evidence, gate) && role in evidence.roles
  }

  ghost predicate RolesProven(inputs: Inputs, gate: Gate, risk: Risk) {
    forall role: Role :: Asked(gate, risk, role) ==> RoleProven(inputs, gate, role)
  }

  ghost predicate NobodyNegativeAndRecovery(inputs: Inputs, gate: Gate) {
    forall evidence <- Attested(inputs) ::
      Supports(inputs, evidence, gate) ==> !(Negative in evidence.roles && Recovery in evidence.roles)
  }

  ghost predicate TwoApart(inputs: Inputs, gate: Gate, risk: Risk) {
    && (!risk.R1? ==> exists maker <- Attested(inputs), checker <- Attested(inputs) ::
          Proves(inputs, maker, gate) && Proves(inputs, checker, gate) &&
          Implementation in maker.roles && Countercheck in checker.roles && Apart(maker, checker))
    && (Asked(gate, risk, Implementation) && Asked(gate, risk, Countercheck) ==>
          exists maker <- Attested(inputs), checker <- Attested(inputs) ::
            Supports(inputs, maker, gate) && Supports(inputs, checker, gate) &&
            Implementation in maker.roles && Countercheck in checker.roles && Apart(maker, checker))
  }

  ghost predicate RequirementsProven(inputs: Inputs, gate: Gate, risk: Risk) {
    && gate.requirements != [] && DistinctNames(gate.requirements)
    && (forall requirement :: requirement in gate.requirementRoles <==> requirement in gate.requirements)
    && forall requirement <- gate.requirements ::
         requirement in gate.requirementRoles && Asked(gate, risk, gate.requirementRoles[requirement]) &&
         exists evidence <- Attested(inputs) ::
           Proves(inputs, evidence, gate) && StatesInRole(evidence, gate, requirement)
  }

  /** Every contract behind the gate has triggers. */
  ghost predicate Watched(inputs: Inputs, gate: Gate) {
    forall contract <- inputs.contracts :: contract.id in gate.contracts ==> contract.triggers.Some?
  }

  ghost predicate ClaimApart(inputs: Inputs, gate: Gate, requirement: string) {
    exists maker <- Attested(inputs), checker <- Attested(inputs) ::
      Proves(inputs, maker, gate) && Proves(inputs, checker, gate) && Implementation in maker.roles &&
      StatesInRole(checker, gate, requirement) && Apart(maker, checker)
  }

  /** A requirement that a countercheck must prove is claimed by one apart from some proving implementation. */
  ghost predicate CountercheckedApart(inputs: Inputs, gate: Gate) {
    forall requirement <- gate.requirements |
      requirement in gate.requirementRoles && gate.requirementRoles[requirement] == Countercheck ::
        ClaimApart(inputs, gate, requirement)
  }

  ghost predicate GateHolds(inputs: Inputs, gate: Gate, risk: Risk) {
    && gate.verified && RolesUsable(gate, risk)
    && RolesProven(inputs, gate, risk) && TwoApart(inputs, gate, risk)
    && (Asked(gate, risk, Negative) && Asked(gate, risk, Recovery) ==> NobodyNegativeAndRecovery(inputs, gate))
    && RequirementsProven(inputs, gate, risk)
    && (Serious(risk) && Watched(inputs, gate) ==> CountercheckedApart(inputs, gate))
  }

  // ----- the strict quorum -----

  /** Everything the record names is watched and unchanged. */
  ghost predicate CurrentThroughout(inputs: Inputs, evidence: Evidence) {
    && Bound(inputs, evidence)
    && (forall gate <- inputs.gates :: gate.id in evidence.gates ==>
          Watched(inputs, gate) && Proves(inputs, evidence, gate))
    && (forall rule <- inputs.invariants :: rule.id in evidence.invariants ==>
          AllUnchanged(inputs, evidence, rule.triggers))
  }

  ghost predicate NamesGate(inputs: Inputs, evidence: Evidence) {
    exists gate <- inputs.gates :: gate.id in evidence.gates
  }

  ghost predicate NamesRule(inputs: Inputs, evidence: Evidence) {
    exists rule <- inputs.invariants :: rule.id in evidence.invariants
  }

  ghost predicate StatesSomething(evidence: Evidence, gate: Gate) {
    gate.id in evidence.gates &&
    exists requirement <- gate.requirements :: StatesInRole(evidence, gate, requirement)
  }

  /** The record claims a requirement of one of its gates, stands for invariants alone, or is selected. */
  ghost predicate TakesPart(inputs: Inputs, evidence: Evidence, risk: Risk) {
    || (exists gate <- inputs.gates :: StatesSomething(evidence, gate))
    || (!NamesGate(inputs, evidence) && NamesRule(inputs, evidence) && NeededIn(evidence, risk))
    || ((NamesGate(inputs, evidence) || NamesRule(inputs, evidence)) &&
        exists role <- evidence.roles :: Chosen(inputs, role, evidence))
  }

  ghost predicate TwoClassesApart(inputs: Inputs, risk: Risk) {
    exists a <- Attested(inputs), b <- Attested(inputs) ::
      CurrentThroughout(inputs, a) && CurrentThroughout(inputs, b) && TakesPart(inputs, a, risk) &&
      TakesPart(inputs, b, risk) && a.class_ != b.class_ && Apart(a, b)
  }

  // ----- the policy -----

  /** Documents, registries and bindings are in order. */
  ghost predicate WellFormed(inputs: Inputs, risk: Risk) {
    && DocumentsAgree(inputs) && SnapshotMatches(inputs) && NothingTwice(inputs) && inputs.snapshot.risk == Some(risk)
    && RulesInForce(inputs, risk) && ContractsInForce(inputs, risk) && OneImpactRelation(inputs)
    && EveryBindingTrustworthy(inputs)
  }

  /** The bound records prove every invariant and every gate of the registry. */
  ghost predicate WellProven(inputs: Inputs, risk: Risk) {
    && RulesProven(inputs, risk) && SelectionHolds(inputs, risk)
    && (forall gate <- inputs.gates :: GateHolds(inputs, gate, risk))
    && (Serious(risk) ==> TwoClassesApart(inputs, risk))
  }

  ghost predicate Allowed(inputs: Inputs) {
    inputs.snapshot.risk.Some? && WellFormed(inputs, inputs.snapshot.risk.value) &&
    WellProven(inputs, inputs.snapshot.risk.value)
  }
}
