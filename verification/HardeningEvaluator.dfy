/**
 The hardening layer's own recomputation of current records, risk, gates and semantic proof
 (scripts/fanmind_release_decision_core_legacy.py, `_binding_map` to `_hardening_blockers`).

 The layer reads its registries without refusing repeated ids; what it computes is stated for
 unambiguous registries, since the base layer blocks all others.
 */
module HardeningEvaluator {
  import opened Wrappers
  import opened ReleaseRecords
  import opened ReleaseLayers
  import opened BaseEvaluator

  // ----- current records -----

  method BindingMap(bindings: seq<Binding>) returns (byId: map<string, Binding>)
    ensures forall id <- byId :: byId[id] in bindings && byId[id].id == id
    ensures forall binding <- bindings :: binding.id != "" ==> binding.id in byId
  {
    byId := map[];
    for i := 0 to |bindings|
      invariant forall id <- byId :: byId[id] in bindings && byId[id].id == id
      invariant forall binding <- bindings[..i] :: binding.id != "" ==> binding.id in byId
    {
      assert bindings[..i + 1] == bindings[..i] + [bindings[i]];
      if bindings[i].id != "" && bindings[i].id !in byId {
        byId := byId[bindings[i].id := bindings[i]];
      }
    }
    assert bindings[..|bindings|] == bindings;
  }

  /** `_entry_is_current_for_hardening`: one early exit per check. */
  method IsCurrent(f: Facts, entry: Evidence, binding: Option<Binding>) returns (current: bool)
    ensures current <==> binding.Some? && CurrentForHardening(f, entry, binding.value)
  {
    if binding.None? { return false; }
    if !CurrentStatus(entry.status) { return false; }
    if entry.commit != f.head || binding.value.commit != f.head { return false; }
    if entry.target != f.target || binding.value.target != f.target { return false; }
    if entry.invalidated { return false; }
    if entry.fingerprint != f.fingerprint { return false; }
    if entry.provenance.None? { return false; }
    if entry.class_ == "" || !PolicyUsable(f.policy, entry.class_) { return false; }
    var policy := f.policy[entry.class_];
    if entry.observedAt.None? || entry.observedAt.value > f.now + 5.0 { return false; }
    if policy.ttlHours.Some? && f.now - entry.observedAt.value > policy.ttlHours.value * 60.0 { return false; }
    for i := 0 to |policy.triggers|
      invariant forall trigger <- policy.triggers[..i] :: TriggerFresh(entry, trigger, f.state)
    {
      assert policy.triggers[..i + 1] == policy.triggers[..i] + [policy.triggers[i]];
      if !TriggerFresh(entry, policy.triggers[i], f.state) { return false; }
    }
    assert policy.triggers[..|policy.triggers|] == policy.triggers;
    current := true;
  }

  /** The record has a binding of its own and is current under it. */
  predicate CurrentUnder(f: Facts, byId: map<string, Binding>, entry: Evidence) {
    entry.id in byId && CurrentForHardening(f, entry, byId[entry.id])
  }

  method CurrentEntries(inputs: Inputs) returns (current: set<Evidence>)
    ensures Unambiguous(inputs) ==> current == LaterCurrent(FactsOf(inputs))
  {
    var f, evidence := FactsOf(inputs), EvidenceOf(inputs);
    var bindings := BindingMap(inputs.snapshot.bindings);
    var found: map<string, Evidence> := map[];
    for i := 0 to |evidence|
      invariant forall id <- found ::
        found[id] in evidence[..i] && found[id].id == id && CurrentUnder(f, bindings, found[id])
      invariant UniqueRegistry(evidence, EvidenceId) ==>
        forall entry <- evidence[..i] :: CurrentUnder(f, bindings, entry) ==>
          entry.id in found && found[entry.id] == entry
    {
      var entry := evidence[i];
      assert evidence[..i + 1] == evidence[..i] + [entry];
      if UniqueRegistry(evidence, EvidenceId) {
        forall other | other in evidence && other.id == entry.id ensures other == entry {
          assert EvidenceId(other) == other.id && EvidenceId(entry) == entry.id;
        }
      }
      if entry.id == "" {
        assert UniqueRegistry(evidence, EvidenceId) ==> EvidenceId(entry) != "";
        continue;
      }
      var isCurrent := IsCurrent(f, entry, if entry.id in bindings then Some(bindings[entry.id]) else None);
      if isCurrent {
        found := found[entry.id := entry];
      }
    }
    assert evidence[..|evidence|] == evidence;
    current := found.Values;
    if Unambiguous(inputs) {
      CurrentMeaning(inputs, bindings, current);
    }
  }

  lemma CurrentMeaning(inputs: Inputs, bindings: map<string, Binding>, current: set<Evidence>)
    requires UniqueRegistry(inputs.snapshot.bindings, BindingId)
    requires forall id <- bindings :: bindings[id] in inputs.snapshot.bindings && bindings[id].id == id
    requires forall binding <- inputs.snapshot.bindings :: binding.id != "" ==> binding.id in bindings
    requires forall entry :: entry in current <==>
      entry in EvidenceOf(inputs) && CurrentUnder(FactsOf(inputs), bindings, entry)
    ensures current == LaterCurrent(FactsOf(inputs))
  {
  }

  // ----- effective risk -----

  lemma HighestUnique(risks: set<Risk>, floor: Risk)
    requires forall bound :: Rank(floor) <= Rank(bound) <==> forall risk <- risks :: Rank(risk) <= Rank(bound)
    ensures floor == Highest(risks)
  {
    assert Rank(floor) <= Rank(Highest(risks));
    assert Rank(floor) <= Rank(floor);
    assert Rank(R1) == 1 && Rank(R2) == 2 && Rank(R3) == 3 && Rank(R4) == 4;
  }

  method InvariantFloor(invariants: seq<Invariant>) returns (floor: Risk)
    ensures floor == Highest(set rule <- invariants | rule.required && rule.risk.Some? :: rule.risk.value)
  {
    floor := R1;
    for i := 0 to |invariants|
      invariant forall bound :: Rank(floor) <= Rank(bound) <==>
        forall rule <- invariants[..i] :: rule.required && rule.risk.Some? ==> Rank(rule.risk.value) <= Rank(bound)
    {
      assert invariants[..i + 1] == invariants[..i] + [invariants[i]];
      if invariants[i].required && invariants[i].risk.Some? {
        floor := Higher(floor, invariants[i].risk.value);
      }
    }
    assert invariants[..|invariants|] == invariants;
    HighestUnique(set rule <- invariants | rule.required && rule.risk.Some? :: rule.risk.value, floor);
  }

  method ContractFloor(affected: seq<string>, byId: map<string, Contract>) returns (floor: Risk)
    ensures floor == Highest(set id <- affected | id in byId && byId[id].minimumRisk.Some? ::
      byId[id].minimumRisk.value)
  {
    floor := R1;
    for i := 0 to |affected|
      invariant forall bound :: Rank(floor) <= Rank(bound) <==>
        forall id <- affected[..i] :: id in byId && byId[id].minimumRisk.Some? ==>
          Rank(byId[id].minimumRisk.value) <= Rank(bound)
    {
      assert affected[..i + 1] == affected[..i] + [affected[i]];
      var id := affected[i];
      if id in byId && byId[id].minimumRisk.Some? {
        floor := Higher(floor, byId[id].minimumRisk.value);
      }
    }
    assert affected[..|affected|] == affected;
    HighestUnique(set id <- affected | id in byId && byId[id].minimumRisk.Some? :: byId[id].minimumRisk.value, floor);
  }

  /** The index is the registry itself, read by id. */
  ghost predicate IndexesContracts(inputs: Inputs, byId: map<string, Contract>) {
    (forall id <- byId :: byId[id] in inputs.contracts && byId[id].id == id) &&
    forall contract <- inputs.contracts :: contract.id in byId && byId[contract.id] == contract
  }

  method ContractIndex(inputs: Inputs) returns (byId: map<string, Contract>)
    ensures Unambiguous(inputs) ==> IndexesContracts(inputs, byId)
  {
    var errors;
    byId, errors := RegistryById(inputs.contracts, ContractId);
    forall contract: Contract ensures ContractId(contract) == contract.id {}
  }

  method EffectiveRisk(inputs: Inputs, byId: map<string, Contract>) returns (invariantFloor: Risk, risk: Risk)
    ensures invariantFloor == Highest(InvariantRisks(FactsOf(inputs)))
    ensures IndexesContracts(inputs, byId) ==> risk == LaterRisk(FactsOf(inputs))
  {
    ghost var f := FactsOf(inputs);
    invariantFloor := InvariantFloor(inputs.invariants);
    assert (set rule <- inputs.invariants | rule.required && rule.risk.Some? :: rule.risk.value) == InvariantRisks(f);
    var contractFloor := ContractFloor(inputs.snapshot.affected, byId);
    if IndexesContracts(inputs, byId) {
      assert (set id <- inputs.snapshot.affected | id in byId && byId[id].minimumRisk.Some? ::
        byId[id].minimumRisk.value) == ContractRisks(f) by {
        forall contract | contract in f.contracts ensures contract.id in byId && byId[contract.id] == contract {}
      }
    }
    risk := Higher(contractFloor, invariantFloor);
    if inputs.snapshot.risk.Some? {
      risk := Higher(risk, inputs.snapshot.risk.value);
    }
  }

  // ----- invariants -----

  /** Some record that names the invariant proves its triggers, or none names it. */
  predicate NamedAndFresh(f: Facts, current: set<Evidence>, rule: Invariant) {
    (exists evidence <- current :: rule.id in evidence.invariants) ==>
    exists evidence <- current :: rule.id in evidence.invariants && MatchesTriggers(evidence, rule.triggers, f.state)
  }

  /** Both invariant passes: configuration and naming first, role-bound revalidation after the risk is known. */
  method CheckRules(f: Facts, invariants: seq<Invariant>, current: set<Evidence>, risk: Risk)
      returns (blockers: seq<Blocker>)
    ensures blockers == [] <==>
      forall rule <- invariants | rule.required :: RuleConfigured(rule) && RuleRevalidated(f, current, rule, risk)
  {
    blockers := [];
    for i := 0 to |invariants|
      invariant blockers == [] <==>
        forall rule <- invariants[..i] | rule.required :: RuleConfigured(rule) && NamedAndFresh(f, current, rule)
    {
      var rule := invariants[i];
      assert invariants[..i + 1] == invariants[..i] + [rule];
      if !rule.required { continue; }
      if rule.risk.None? {
        blockers := blockers + [Blocker(InvariantRule, rule.id)];
      }
      if !Configured(rule.triggers) {
        blockers := blockers + [Blocker(InvariantRule, rule.id)];
        continue;
      }
      if !NamedAndFresh(f, current, rule) {
        blockers := blockers + [Blocker(Revalidation, rule.id)];
      }
    }
    assert invariants[..|invariants|] == invariants;
    ghost var first := blockers;
    for i := 0 to |invariants|
      invariant blockers == [] <==>
        (first == [] && forall rule <- invariants[..i] | rule.required && Configured(rule.triggers) ::
          RuleRevalidated(f, current, rule, risk))
    {
      var rule := invariants[i];
      assert invariants[..i + 1] == invariants[..i] + [rule];
      if rule.required && Configured(rule.triggers) && !RuleRevalidated(f, current, rule, risk) {
        blockers := blockers + [Blocker(Revalidation, rule.id)];
      }
    }
    assert invariants[..|invariants|] == invariants;
    forall rule | rule in invariants && RuleRevalidated(f, current, rule, risk)
      ensures NamedAndFresh(f, current, rule)
    {}
  }

  // ----- contracts and gates -----

  /** The triggers a contract asks for: none when it declares none, unusable when they are not configured. */
  function ContractTriggers(contract: Contract): Option<seq<string>> {
    if contract.triggers.None? then Some([])
    else if Configured(contract.triggers.value) then contract.triggers
    else None
  }

  method ReadContractTriggers(affected: seq<string>, byId: map<string, Contract>)
      returns (triggers: map<string, Option<seq<string>>>, blockers: seq<Blocker>)
    ensures blockers == [] <==> forall id <- affected :: id in byId ==> ContractTriggers(byId[id]).Some?
    ensures forall id <- triggers :: id in byId && triggers[id] == ContractTriggers(byId[id])
    ensures forall id <- affected :: id in byId ==> id in triggers
  {
    triggers, blockers := map[], [];
    for i := 0 to |affected|
      invariant blockers == [] <==> forall id <- affected[..i] :: id in byId ==> ContractTriggers(byId[id]).Some?
      invariant forall id <- triggers :: id in byId && triggers[id] == ContractTriggers(byId[id])
      invariant forall id <- affected[..i] :: id in byId ==> id in triggers
    {
      var id := affected[i];
      assert affected[..i + 1] == affected[..i] + [id];
      if id !in byId { continue; }
      var raw := byId[id].triggers;
      if raw.None? {
        triggers := triggers[id := Some([])];
      } else if !Configured(raw.value) {
        blockers := blockers + [Blocker(Revalidation, id)];
        triggers := triggers[id := None];
      } else {
        triggers := triggers[id := raw];
      }
    }
    assert affected[..|affected|] == affected;
  }

  function Lookup(table: map<string, set<string>>, key: string): set<string> {
    if key in table then table[key] else {}
  }

  /** The gates of a list that name the contract. */
  function Naming(gates: seq<Gate>, known: set<string>, contract: string): set<string> {
    set gate <- gates | Configured(gate.contracts) && contract in gate.contracts && contract in known :: gate.id
  }

  lemma NamingGrows(gates: seq<Gate>, i: nat, known: set<string>, contract: string)
    requires i < |gates|
    ensures Naming(gates[..i + 1], known, contract) ==
            Naming(gates[..i], known, contract) + NamedBy(gates[i], known, contract)
  {
    assert gates[..i + 1] == gates[..i] + [gates[i]];
  }

  /** What one gate adds to the gates of a contract. */
  function NamedBy(gate: Gate, known: set<string>, contract: string): set<string> {
    if Configured(gate.contracts) && contract in gate.contracts && contract in known then {gate.id} else {}
  }

  predicate GateUsable(gate: Gate, known: set<string>) {
    Configured(gate.contracts) && forall id <- gate.contracts :: id in known
  }

  /** One turn of the gate loop. */
  method ReadGate(gate: Gate, known: set<string>, before: map<string, set<string>>)
      returns (authoritative: map<string, set<string>>, blockers: seq<Blocker>)
    ensures blockers == [] <==> GateUsable(gate, known)
    ensures forall contract ::
      Lookup(authoritative, contract) == Lookup(before, contract) + NamedBy(gate, known, contract)
  {
    if !Configured(gate.contracts) {
      return before, [Blocker(ImpactMap, gate.id)];
    }
    authoritative, blockers := AddContracts(gate, known, before);
  }

  method ReadGates(gates: seq<Gate>, known: set<string>)
      returns (byId: map<string, Gate>, authoritative: map<string, set<string>>, blockers: seq<Blocker>)
    ensures blockers == [] <==> forall gate <- gates :: GateUsable(gate, known)
    ensures forall id <- byId :: byId[id] in gates && byId[id].id == id
    ensures forall gate <- gates :: gate.id in byId
    ensures forall contract :: Lookup(authoritative, contract) == Naming(gates, known, contract)
  {
    byId, authoritative, blockers := map[], map[], [];
    for i := 0 to |gates|
      invariant blockers == [] <==> forall gate <- gates[..i] :: GateUsable(gate, known)
      invariant forall id <- byId :: byId[id] in gates && byId[id].id == id
      invariant forall gate <- gates[..i] :: gate.id in byId
      invariant forall contract :: Lookup(authoritative, contract) == Naming(gates[..i], known, contract)
    {
      var gate := gates[i];
      assert gates[..i + 1] == gates[..i] + [gate];
      byId := byId[gate.id := gate];
      var longer, errors := ReadGate(gate, known, authoritative);
      forall contract ensures Lookup(longer, contract) == Naming(gates[..i + 1], known, contract) {
        NamingGrows(gates, i, known, contract);
      }
      authoritative, blockers := longer, blockers + errors;
    }
    assert gates[..|gates|] == gates;
  }

  method AddContracts(gate: Gate, known: set<string>, before: map<string, set<string>>)
      returns (authoritative: map<string, set<string>>, blockers: seq<Blocker>)
    ensures blockers == [] <==> forall id <- gate.contracts :: id in known
    ensures forall contract ::
      (Lookup(authoritative, contract) ==
       Lookup(before, contract) + (if contract in gate.contracts && contract in known then {gate.id} else {}))
  {
    authoritative, blockers := before, [];
    for i := 0 to |gate.contracts|
      invariant blockers == [] <==> forall id <- gate.contracts[..i] :: id in known
      invariant forall contract ::
        (Lookup(authoritative, contract) ==
         Lookup(before, contract) + (if contract in gate.contracts[..i] && contract in known then {gate.id} else {}))
    {
      var id := gate.contracts[i];
      assert gate.contracts[..i + 1] == gate.contracts[..i] + [id];
      if id !in known {
        blockers := blockers + [Blocker(ImpactMap, id)];
      } else {
        authoritative := authoritative[id := Lookup(authoritative, id) + {gate.id}];
      }
    }
    assert gate.contracts[..|gate.contracts|] == gate.contracts;
  }

  method CheckMaps(affected: seq<string>, byContract: map<string, Mapping>, authoritative: map<string, set<string>>)
      returns (blockers: seq<Blocker>)
    ensures blockers == [] <==> forall id <- affected :: id in byContract && MappingUsable(byContract[id]) ==>
      AsSet(byContract[id].gates) == Lookup(authoritative, id)
  {
    blockers := [];
    for i := 0 to |affected|
      invariant blockers == [] <==> forall id <- affected[..i] :: id in byContract && MappingUsable(byContract[id]) ==>
        AsSet(byContract[id].gates) == Lookup(authoritative, id)
    {
      var id := affected[i];
      assert affected[..i + 1] == affected[..i] + [id];
      if id !in byContract || !MappingUsable(byContract[id]) { continue; }
      var mapped, own := AsSet(byContract[id].gates), Lookup(authoritative, id);
      if mapped - own != {} {
        blockers := blockers + [Blocker(ImpactMap, id)];
      }
      if own - mapped != {} {
        blockers := blockers + [Blocker(ImpactMap, id)];
      }
      assert mapped - own == {} && own - mapped == {} <==> mapped == own;
    }
    assert affected[..|affected|] == affected;
  }

  // ----- semantic proof of one gate -----

  /** Fresh for every affected contract behind the gate, by the collected contract triggers. */
  predicate FreshUnder(f: Facts, triggers: map<string, Option<seq<string>>>, evidence: Evidence, gate: Gate) {
    forall id <- gate.contracts | id in f.affected ::
      id in triggers && triggers[id].Some? && MatchesTriggers(evidence, triggers[id].value, f.state)
  }

  /** The requirement loop: every requirement is claimed in its mapped role. */
  method CheckRequirements(revalidated: set<Evidence>, gate: Gate) returns (blockers: seq<Blocker>)
    ensures blockers == [] <==>
      forall requirement <- gate.requirements :: RequirementCovered(revalidated, gate, requirement)
  {
    blockers := [];
    for i := 0 to |gate.requirements|
      invariant blockers == [] <==>
        forall requirement <- gate.requirements[..i] :: RequirementCovered(revalidated, gate, requirement)
    {
      var requirement := gate.requirements[i];
      assert gate.requirements[..i + 1] == gate.requirements[..i] + [requirement];
      if !RequirementCovered(revalidated, gate, requirement) {
        blockers := blockers + [Blocker(RequirementEvidence, requirement)];
      }
    }
    assert gate.requirements[..|gate.requirements|] == gate.requirements;
  }

  /** Some record bound to the gate satisfies the contract's configured triggers, if it has any. */
  predicate ContractAnswered(f: Facts, candidates: set<Evidence>, triggers: map<string, Option<seq<string>>>,
                             id: string)
  {
    id in triggers && triggers[id].Some? && triggers[id].value != [] ==>
      exists evidence <- candidates :: MatchesTriggers(evidence, triggers[id].value, f.state)
  }

  /** The contract loop of one gate. */
  method CheckContracts(f: Facts, candidates: set<Evidence>, triggers: map<string, Option<seq<string>>>, gate: Gate)
      returns (blockers: seq<Blocker>)
    ensures blockers == [] <==>
      forall id <- gate.contracts | id in f.affected :: ContractAnswered(f, candidates, triggers, id)
  {
    blockers := [];
    for i := 0 to |gate.contracts|
      invariant blockers == [] <==>
        forall id <- gate.contracts[..i] | id in f.affected :: ContractAnswered(f, candidates, triggers, id)
    {
      var id := gate.contracts[i];
      assert gate.contracts[..i + 1] == gate.contracts[..i] + [id];
      if id in f.affected && !ContractAnswered(f, candidates, triggers, id) {
        blockers := blockers + [Blocker(Revalidation, id)];
      }
    }
    assert gate.contracts[..|gate.contracts|] == gate.contracts;
  }

  /** The role loop of one gate. */
  method CheckProofRoles(revalidated: set<Evidence>, gate: Gate, roles: set<Role>) returns (blockers: seq<Blocker>)
    ensures blockers == [] <==> forall role <- roles :: WithRole(revalidated, role) != {}
  {
    blockers := [];
    var pending := roles;
    ghost var done: set<Role> := {};
    while pending != {}
      invariant done + pending == roles
      invariant blockers == [] <==> forall role <- done :: WithRole(revalidated, role) != {}
      decreases pending
    {
      var role :| role in pending;
      pending, done := pending - {role}, done + {role};
      if WithRole(revalidated, role) == {} {
        blockers := blockers + [Blocker(GateEvidence, gate.id)];
      }
    }
    assert done == roles;
  }

  /** A proven gate has a fully fresh record, which answers each of its contracts. */
  lemma ProvenGateAnswersContracts(f: Facts, current: set<Evidence>, triggers: map<string, Option<seq<string>>>,
                                   gate: Gate, risk: Risk)
    requires GateProven(RevalidatedUnder(f, current, triggers, gate), gate, risk)
    ensures forall id <- gate.contracts | id in f.affected ::
      ContractAnswered(f, Candidates(current, gate), triggers, id)
  {
    var role :| role in RequiredRoles(risk);
    var holders := WithRole(RevalidatedUnder(f, current, triggers, gate), role);
    assert role in GateRoles(gate, risk).value && holders != {};
    var evidence :| evidence in holders;
    assert evidence in Candidates(current, gate) && FreshUnder(f, triggers, evidence, gate);
  }

  /** The current records bound to the gate. */
  function Candidates(current: set<Evidence>, gate: Gate): set<Evidence> {
    set evidence <- current | gate.id in evidence.gates
  }

  /** One mandatory gate: contracts, roles, independence, and every requirement in its mapped role. */
  method ProveGate(f: Facts, current: set<Evidence>, triggers: map<string, Option<seq<string>>>, gate: Gate, risk: Risk)
      returns (blockers: seq<Blocker>)
    ensures blockers == [] <==> GateProven(RevalidatedUnder(f, current, triggers, gate), gate, risk)
  {
    if !Configured(gate.requirements) {
      return [Blocker(GateEvidence, gate.id)];
    }
    if GateRoles(gate, risk).None? {
      return [Blocker(GateEvidence, gate.id)];
    }
    var roles := GateRoles(gate, risk).value;
    var contractErrors := CheckContracts(f, Candidates(current, gate), triggers, gate);
    var revalidated := RevalidatedUnder(f, current, triggers, gate);
    var proofErrors := ProveSemantics(revalidated, gate, roles, risk);
    if GateProven(revalidated, gate, risk) {
      ProvenGateAnswersContracts(f, current, triggers, gate, risk);
    }
    blockers := contractErrors + proofErrors;
  }

  /** Roles, independence and requirements, from the fully revalidated records. */
  method ProveSemantics(revalidated: set<Evidence>, gate: Gate, roles: set<Role>, risk: Risk)
      returns (blockers: seq<Blocker>)
    requires Configured(gate.requirements) && GateRoles(gate, risk) == Some(roles)
    ensures blockers == [] <==> GateProven(revalidated, gate, risk)
  {
    blockers := CheckProofRoles(revalidated, gate, roles);
    var makers, checkers := WithRole(revalidated, Implementation), WithRole(revalidated, Countercheck);
    if Rank(risk) >= 2 && makers != {} && checkers != {} && !AnyIndependent(makers, checkers) {
      blockers := blockers + [Blocker(GateEvidence, gate.id)];
    }
    assert Rank(risk) >= 2 ==> Implementation in roles && Countercheck in roles;
    if gate.requirementRoles.Keys != AsSet(gate.requirements) {
      return blockers + [Blocker(RequirementEvidence, gate.id)];
    }
    if exists requirement <- gate.requirementRoles :: gate.requirementRoles[requirement] !in roles {
      return blockers + [Blocker(RequirementEvidence, gate.id)];
    }
    var uncovered := CheckRequirements(revalidated, gate);
    blockers := blockers + uncovered;
  }

  /** The gate at an id is proven, or there is none. */
  predicate ProvenAt(f: Facts, current: set<Evidence>, triggers: map<string, Option<seq<string>>>, byId: map<string,
                     Gate>,
                     id: string, risk: Risk)
  {
    id in byId ==> GateProven(RevalidatedUnder(f, current, triggers, byId[id]), byId[id], risk)
  }

  method ProveGates(f: Facts, current: set<Evidence>, triggers: map<string, Option<seq<string>>>,
                    mandatory: set<string>,
                    byId: map<string, Gate>, risk: Risk) returns (blockers: seq<Blocker>)
    ensures blockers == [] <==> forall id <- mandatory :: ProvenAt(f, current, triggers, byId, id, risk)
  {
    blockers := [];
    var pending := mandatory;
    ghost var done: set<string> := {};
    while pending != {}
      invariant done + pending == mandatory
      invariant blockers == [] <==> forall id <- done :: ProvenAt(f, current, triggers, byId, id, risk)
      decreases pending
    {
      var id :| id in pending;
      pending, done := pending - {id}, done + {id};
      if id in byId {
        var errors := ProveGate(f, current, triggers, byId[id], risk);
        blockers := blockers + errors;
      }
    }
    assert done == mandatory;
  }

  function RevalidatedUnder(f: Facts, current: set<Evidence>, triggers: map<string, Option<seq<string>>>,
                            gate: Gate): set<Evidence>
  {
    set evidence <- current | gate.id in evidence.gates && FreshUnder(f, triggers, evidence, gate)
  }

  // ----- the layer -----

  lemma RulesMeaning(inputs: Inputs, current: set<Evidence>, risk: Risk)
    ensures RulesRevalidated(FactsOf(inputs), current, risk) <==>
      forall rule <- inputs.invariants | rule.required ::
        RuleConfigured(rule) && RuleRevalidated(FactsOf(inputs), current, rule, risk)
  {
  }

  lemma TriggersMeaning(inputs: Inputs, byId: map<string, Contract>)
    requires IndexesContracts(inputs, byId)
    ensures ContractTriggersConfigured(FactsOf(inputs)) <==>
      forall id <- inputs.snapshot.affected :: id in byId ==> ContractTriggers(byId[id]).Some?
    ensures byId.Keys == ContractIds(FactsOf(inputs))
  {
  }

  lemma NamingMeaning(inputs: Inputs, contract: string)
    ensures Naming(inputs.gates, ContractIds(FactsOf(inputs)), contract) ==
      AuthoritativeGates(FactsOf(inputs), contract)
  {
  }

  lemma MapsMeaning(inputs: Inputs, byContract: map<string, Mapping>, authoritative: map<string, set<string>>)
    requires forall id <- byContract :: byContract[id] in inputs.mappings && byContract[id].contract == id
    requires forall mapping <- inputs.mappings ::
      mapping.contract in byContract && byContract[mapping.contract] == mapping
    requires forall contract :: Lookup(authoritative, contract) == AuthoritativeGates(FactsOf(inputs), contract)
    ensures MapsAgree(FactsOf(inputs)) <==>
      forall id <- inputs.snapshot.affected :: id in byContract && MappingUsable(byContract[id]) ==>
        AsSet(byContract[id].gates) == Lookup(authoritative, id)
  {
  }

  lemma RevalidatedMeaning(inputs: Inputs, byId: map<string, Contract>, triggers: map<string, Option<seq<string>>>,
                           gate: Gate)
    requires IndexesContracts(inputs, byId)
    requires forall id <- triggers :: id in byId && triggers[id] == ContractTriggers(byId[id])
    requires forall id <- inputs.snapshot.affected :: id in byId ==> id in triggers
    ensures RevalidatedUnder(FactsOf(inputs), LaterCurrent(FactsOf(inputs)), triggers, gate) ==
      Revalidated(FactsOf(inputs), gate)
  {
  }

  lemma ProofMeaning(inputs: Inputs, byId: map<string, Contract>, triggers: map<string, Option<seq<string>>>,
                     mandatory: set<string>,
                     gateById: map<string, Gate>, risk: Risk)
    requires Unambiguous(inputs) && IndexesContracts(inputs, byId)
    requires forall id <- triggers :: id in byId && triggers[id] == ContractTriggers(byId[id])
    requires forall id <- inputs.snapshot.affected :: id in byId ==> id in triggers
    requires IndexesGates(inputs, gateById)
    requires mandatory == HardMandatory(FactsOf(inputs))
    ensures GatesProven(FactsOf(inputs), risk) <==>
      forall id <- mandatory :: ProvenAt(FactsOf(inputs), LaterCurrent(FactsOf(inputs)), triggers, gateById, id, risk)
  {
    var f := FactsOf(inputs);
    forall gate | gate in f.gates ensures gate.id in gateById && gateById[gate.id] == gate {
      assert GateId(gate) == gate.id && GateId(gateById[gate.id]) == gate.id;
    }
    forall id | id in gateById
      ensures RevalidatedUnder(f, LaterCurrent(f), triggers, gateById[id]) == Revalidated(f, gateById[id]) &&
        gateById[id] in f.gates
    {
      RevalidatedMeaning(inputs, byId, triggers, gateById[id]);
    }
  }

  /** The applicable gates and those that an affected contract leads to. */
  function MandatoryBy(gateById: map<string, Gate>, affected: seq<string>,
                       authoritative: map<string, set<string>>): set<string>
  {
    (set id <- gateById | gateById[id].applicable) +
    (set contract <- affected, id <- Lookup(authoritative, contract) :: id)
  }

  lemma MandatoryUnion(inputs: Inputs, gateById: map<string, Gate>, authoritative: map<string, set<string>>)
    requires UniqueRegistry(inputs.gates, GateId)
    requires forall id <- gateById :: gateById[id] in inputs.gates && gateById[id].id == id
    requires forall gate <- inputs.gates :: gate.id in gateById
    requires forall contract :: Lookup(authoritative, contract) == AuthoritativeGates(FactsOf(inputs), contract)
    ensures MandatoryBy(gateById, inputs.snapshot.affected, authoritative) == HardMandatory(FactsOf(inputs))
  {
  }

  method MappingIndex(inputs: Inputs) returns (byContract: map<string, Mapping>)
    ensures forall id <- byContract :: byContract[id] in inputs.mappings && byContract[id].contract == id
    ensures Unambiguous(inputs) ==>
      forall mapping <- inputs.mappings :: mapping.contract in byContract && byContract[mapping.contract] == mapping
  {
    var errors;
    byContract, errors := RegistryById(inputs.mappings, MappingId);
    forall mapping: Mapping ensures MappingId(mapping) == mapping.contract {}
  }

  /** The gate index is the registry itself, read by id. */
  ghost predicate IndexesGates(inputs: Inputs, byId: map<string, Gate>) {
    (forall id <- byId :: byId[id] in inputs.gates && byId[id].id == id) &&
    forall gate <- inputs.gates :: gate.id in byId
  }

  /** Gate registry against impact map, and the gates that are mandatory by either of them. */
  method CheckBoundary(inputs: Inputs, contractById: map<string, Contract>)
      returns (gateById: map<string, Gate>, mandatory: set<string>, blockers: seq<Blocker>)
    ensures IndexesGates(inputs, gateById)
    ensures Unambiguous(inputs) && IndexesContracts(inputs, contractById) ==>
      mandatory == HardMandatory(FactsOf(inputs))
    ensures Unambiguous(inputs) && IndexesContracts(inputs, contractById) ==>
      (blockers == [] <==> GateContractsConfigured(FactsOf(inputs)) && MapsAgree(FactsOf(inputs)))
  {
    var byContract := MappingIndex(inputs);
    var authoritative, gateErrors;
    gateById, authoritative, gateErrors := ReadGates(inputs.gates, contractById.Keys);
    var mapErrors := CheckMaps(inputs.snapshot.affected, byContract, authoritative);
    mandatory := MandatoryBy(gateById, inputs.snapshot.affected, authoritative);
    blockers := gateErrors + mapErrors;
    if Unambiguous(inputs) && IndexesContracts(inputs, contractById) {
      BoundaryMeaning(inputs, contractById, byContract, gateById, authoritative);
    }
  }

  /** What the indices say about an unambiguous request. */
  lemma BoundaryMeaning(inputs: Inputs, contractById: map<string, Contract>, byContract: map<string, Mapping>,
                        gateById: map<string, Gate>, authoritative: map<string, set<string>>)
    requires Unambiguous(inputs) && IndexesContracts(inputs, contractById) && IndexesGates(inputs, gateById)
    requires forall id <- byContract :: byContract[id] in inputs.mappings && byContract[id].contract == id
    requires forall mapping <- inputs.mappings ::
      mapping.contract in byContract && byContract[mapping.contract] == mapping
    requires forall contract :: Lookup(authoritative, contract) == Naming(inputs.gates, contractById.Keys, contract)
    ensures MandatoryBy(gateById, inputs.snapshot.affected, authoritative) == HardMandatory(FactsOf(inputs))
    ensures MapsAgree(FactsOf(inputs)) <==>
      forall id <- inputs.snapshot.affected :: id in byContract && MappingUsable(byContract[id]) ==>
        AsSet(byContract[id].gates) == Lookup(authoritative, id)
    ensures GateContractsConfigured(FactsOf(inputs)) <==>
      forall gate <- inputs.gates :: GateUsable(gate, contractById.Keys)
  {
    TriggersMeaning(inputs, contractById);
    forall contract ensures Lookup(authoritative, contract) == AuthoritativeGates(FactsOf(inputs), contract) {
      NamingMeaning(inputs, contract);
    }
    MapsMeaning(inputs, byContract, authoritative);
    MandatoryUnion(inputs, gateById, authoritative);
    ConfiguredMeaning(inputs);
  }

  lemma ConfiguredMeaning(inputs: Inputs)
    ensures GateContractsConfigured(FactsOf(inputs)) <==>
      forall gate <- inputs.gates :: GateUsable(gate, ContractIds(FactsOf(inputs)))
  {
  }

  /** For unambiguous registries the extra blockers are empty exactly when the hardening layer accepts. */
  method HardeningBlockers(inputs: Inputs) returns (blockers: seq<Blocker>)
    ensures Unambiguous(inputs) && inputs.attestation.Some? && inputs.trigger.Some? ==>
      (blockers == [] <==> HardeningAccepts(FactsOf(inputs)))
  {
    if inputs.attestation.None? || inputs.trigger.None? {
      return [];
    }
    var f := FactsOf(inputs);
    var current := CurrentEntries(inputs);
    var contractById := ContractIndex(inputs);
    var invariantFloor, risk := EffectiveRisk(inputs, contractById);
    var ruleErrors := CheckRules(f, inputs.invariants, current, risk);
    var triggers, triggerErrors := ReadContractTriggers(inputs.snapshot.affected, contractById);
    var gateById, mandatory, boundaryErrors := CheckBoundary(inputs, contractById);
    var proofErrors := ProveGates(f, current, triggers, mandatory, gateById, risk);
    blockers := ruleErrors + triggerErrors + boundaryErrors + proofErrors;
    if inputs.snapshot.risk.Some? && Rank(inputs.snapshot.risk.value) < Rank(invariantFloor) {
      blockers := blockers + [Blocker(RiskInput, "")];
    }
    if Unambiguous(inputs) {
      TriggersMeaning(inputs, contractById);
      RulesMeaning(inputs, current, risk);
      ProofMeaning(inputs, contractById, triggers, mandatory, gateById, risk);
    }
  }
}
