/**
 The typed inputs of the release decision: registries, evidence, bindings and the release snapshot
 (scripts/_fanmind_release_decision_base.py and the layers around it).

 Times are minutes on one clock. Signatures, schema versions, lifetimes and the simple snapshot
 switches arrive as booleans.
 */
module ReleaseRecords {
  import opened Wrappers

  datatype Risk = R1 | R2 | R3 | R4

  datatype Role = Evidential | Implementation | Countercheck | Negative | Recovery | OtherRole(name: string)

  datatype EvidenceStatus = Verified | Counterchecked | Accepted | ProductionConfirmed | NotCurrent

  /** A registered invariant; `risk` is None when its declared risk is not one of the four. */
  datatype Invariant = Invariant(id: string, required: bool, enforced: bool, risk: Option<Risk>, triggers: seq<string>)

  /** A contract; `triggers` is None when the contract declares none. */
  datatype Contract = Contract(id: string, active: bool, minimumRisk: Option<Risk>, triggers: Option<seq<string>>)

  datatype Gate = Gate(
    id: string, applicable: bool, verified: bool, contracts: seq<string>, configuredRoles: Option<seq<Role>>,
    requirements: seq<string>, requirementRoles: map<string, Role>)

  /** One impact-map row: the gates a contract leads to. */
  datatype Mapping = Mapping(contract: string, gates: seq<string>)

  datatype ClassPolicy = ClassPolicy(ttlHours: Option<real>, triggers: seq<string>)

  datatype Provenance = Provenance(source: string, execution: string, independence: string)

  datatype Evidence = Evidence(
    id: string, class_: string, status: EvidenceStatus, commit: string, target: string, invalidated: bool,
    fingerprint: string, provenance: Option<Provenance>, observedAt: Option<real>,
    fingerprints: map<string, string>, roles: set<Role>, gates: set<string>, invariants: set<string>,
    requirements: map<string, seq<string>>)

  datatype Binding = Binding(id: string, commit: string, target: string)

  /** `selected` holds the four `*_evidence_id` fields that are present. */
  datatype Snapshot = Snapshot(
    affected: seq<string>, risk: Option<Risk>, evaluatedCommit: string, evaluatedTarget: string,
    bindings: seq<Binding>, selected: map<Role, string>, switchesClear: bool, declaredProtected: bool)

  datatype Attestation = Attestation(evidence: seq<Evidence>, triggerState: map<string, string>, authentic: bool)

  datatype TriggerDocument = TriggerDocument(state: map<string, string>, authentic: bool)

  /** `protection` is the action class derived from operation and target, None when they do not fit. */
  datatype Inputs = Inputs(
    invariants: seq<Invariant>, gates: seq<Gate>, contracts: seq<Contract>, mappings: seq<Mapping>,
    policy: map<string, ClassPolicy>, snapshot: Snapshot, head: string, target: string, fingerprint: string,
    protection: Option<bool>, now: real, attestation: Option<Attestation>, trigger: Option<TriggerDocument>)

  // ----- risks -----

  function Rank(risk: Risk): nat {
    match risk case R1 => 1 case R2 => 2 case R3 => 3 case R4 => 4
  }

  function Higher(left: Risk, right: Risk): Risk {
    if Rank(right) > Rank(left) then right else left
  }

  /** The highest member, R1 when there is none. */
  function Highest(risks: set<Risk>): Risk {
    if R4 in risks then R4 else if R3 in risks then R3 else if R2 in risks then R2 else R1
  }

  // ----- roles -----

  function RequiredRoles(risk: Risk): set<Role> {
    match risk
    case R1 => {Evidential}
    case R2 => {Implementation, Countercheck, Negative}
    case R3 => {Implementation, Countercheck, Negative, Recovery}
    case R4 => {Implementation, Countercheck, Negative, Recovery}
  }

  /** The roles that have a field of their own in the snapshot. */
  predicate HasField(role: Role) {
    role.Implementation? || role.Countercheck? || role.Negative? || role.Recovery?
  }

  predicate NoDuplicates<T(==)>(items: seq<T>) {
    forall i, j :: 0 <= i < j < |items| ==> items[i] != items[j]
  }

  /** `_required_roles_for_gate`: None when the configured roles are unusable at this risk. */
  function GateRoles(gate: Gate, risk: Risk): Option<set<Role>> {
    match gate.configuredRoles
    case None => Some(RequiredRoles(risk))
    case Some(roles) =>
      var configured := set role | role in roles;
      if roles == [] || !NoDuplicates(roles) || (exists role <- roles :: role.OtherRole?) ||
         !(RequiredRoles(risk) <= configured)
      then None else Some(configured)
  }

  /** A configured list: non-empty, no empty entry, no repetition. */
  predicate Configured(values: seq<string>) {
    values != [] && "" !in values && NoDuplicates(values)
  }

  // ----- evidence -----

  predicate CurrentStatus(status: EvidenceStatus) {
    !status.NotCurrent?
  }

  const MAX_TTL_HOURS: real := 876000.0

  /** `_class_policy`: the class has a usable time-to-live and triggers. */
  predicate PolicyUsable(policy: map<string, ClassPolicy>, class_: string) {
    class_ in policy && policy[class_].triggers != [] && "" !in policy[class_].triggers &&
    (policy[class_].ttlHours.Some? ==> 0.0 <= policy[class_].ttlHours.value <= MAX_TTL_HOURS)
  }

  /** The recorded fingerprint of a trigger equals its current, non-empty state. */
  predicate TriggerFresh(evidence: Evidence, trigger: string, state: map<string, string>) {
    trigger in state && state[trigger] != "" && trigger in evidence.fingerprints &&
    evidence.fingerprints[trigger] == state[trigger]
  }

  /** `_entry_matches_triggers`. */
  predicate MatchesTriggers(evidence: Evidence, triggers: seq<string>, state: map<string, string>) {
    forall trigger <- triggers :: TriggerFresh(evidence, trigger, state)
  }

  /** `_independent`: both provenances are known and differ in all three fields. */
  predicate Independent(left: Evidence, right: Evidence) {
    left.provenance.Some? && right.provenance.Some? &&
    left.provenance.value.source != right.provenance.value.source &&
    left.provenance.value.execution != right.provenance.value.execution &&
    left.provenance.value.independence != right.provenance.value.independence
  }

  predicate AnyIndependent(left: set<Evidence>, right: set<Evidence>) {
    exists a <- left, b <- right :: Independent(a, b)
  }

  predicate StateValid(state: map<string, string>) {
    forall key <- state :: key != "" && state[key] != ""
  }

  // ----- the inputs as sets -----

  /** What the decision depends on once the registries are known to be free of duplicates. */
  datatype Facts = Facts(
    invariants: set<Invariant>, gates: set<Gate>, contracts: set<Contract>, mappings: set<Mapping>,
    evidence: set<Evidence>, bindings: set<Binding>, affected: set<string>,
    policy: map<string, ClassPolicy>, risk: Option<Risk>, selected: map<Role, string>,
    head: string, target: string, fingerprint: string, now: real, state: map<string, string>)

  function AsSet<T(==)>(items: seq<T>): set<T> {
    set item | item in items
  }

  function EvidenceOf(inputs: Inputs): seq<Evidence> {
    if inputs.attestation.Some? then inputs.attestation.value.evidence else []
  }

  function StateOf(inputs: Inputs): map<string, string> {
    if inputs.trigger.Some? then inputs.trigger.value.state else map[]
  }

  function FactsOf(inputs: Inputs): Facts {
    Facts(AsSet(inputs.invariants), AsSet(inputs.gates), AsSet(inputs.contracts), AsSet(inputs.mappings),
          AsSet(EvidenceOf(inputs)), AsSet(inputs.snapshot.bindings), AsSet(inputs.snapshot.affected),
          inputs.policy, inputs.snapshot.risk, inputs.snapshot.selected,
          inputs.head, inputs.target, inputs.fingerprint, inputs.now, StateOf(inputs))
  }

  /** Every id is non-empty and occurs once; stated so that the order of the list plays no role. */
  ghost predicate UniqueRegistry<T(!new)>(items: seq<T>, idOf: T -> string) {
    (forall item <- items :: idOf(item) != "" && multiset(items)[item] == 1) &&
    forall left <- items, right <- items :: idOf(left) == idOf(right) ==> left == right
  }

  function InvariantId(rule: Invariant): string { rule.id }
  function GateId(gate: Gate): string { gate.id }
  function ContractId(contract: Contract): string { contract.id }
  function MappingId(mapping: Mapping): string { mapping.contract }
  function EvidenceId(evidence: Evidence): string { evidence.id }
  function BindingId(binding: Binding): string { binding.id }
  function SelfId(id: string): string { id }

  /** All lists the base evaluator refuses to read with duplicates. */
  ghost predicate Unambiguous(inputs: Inputs) {
    UniqueRegistry(inputs.invariants, InvariantId) && UniqueRegistry(inputs.gates, GateId) &&
    UniqueRegistry(inputs.contracts, ContractId) && UniqueRegistry(inputs.mappings, MappingId) &&
    UniqueRegistry(EvidenceOf(inputs), EvidenceId) && UniqueRegistry(inputs.snapshot.bindings, BindingId) &&
    UniqueRegistry(inputs.snapshot.affected, SelfId)
  }

  /** The same on sets: an id names one record. */
  ghost predicate DistinctIds(f: Facts) {
    (forall a <- f.invariants, b <- f.invariants :: a.id == b.id ==> a == b) &&
    (forall a <- f.gates, b <- f.gates :: a.id == b.id ==> a == b) &&
    (forall a <- f.contracts, b <- f.contracts :: a.id == b.id ==> a == b) &&
    (forall a <- f.mappings, b <- f.mappings :: a.contract == b.contract ==> a == b) &&
    (forall a <- f.evidence, b <- f.evidence :: a.id == b.id ==> a == b) &&
    (forall a <- f.bindings, b <- f.bindings :: a.id == b.id ==> a == b)
  }
}
