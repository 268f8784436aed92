/**
 The two quorum layers and the evaluator chain
 (scripts/fanmind_release_decision_core_round8.py, ..._round11.py and the wrappers' `evaluate_release_decision`).
 */
module ReleaseDecision {
  import opened Wrappers
  import opened ReleaseRecords
  import opened ReleaseLayers
  import opened BaseEvaluator
  import opened HardeningEvaluator

  // ----- one record in the quorum loops -----

  /** The contracts' configured triggers by id; contracts without configured triggers are left out. */
  method QuorumTriggers(inputs: Inputs, byId: map<string, Contract>) returns (triggers: map<string, seq<string>>)
    ensures IndexesContracts(inputs, byId) ==> TriggersFor(FactsOf(inputs), triggers)
  {
    var affected := inputs.snapshot.affected;
    triggers := map[];
    for i := 0 to |affected|
      invariant forall id <- triggers ::
        id in byId && byId[id].triggers == Some(triggers[id]) && Configured(triggers[id])
      invariant forall id <- affected[..i] ::
        id in byId && byId[id].triggers.Some? && Configured(byId[id].triggers.value) ==> id in triggers
    {
      var id := affected[i];
      assert affected[..i + 1] == affected[..i] + [id];
      if id in byId && byId[id].triggers.Some? && Configured(byId[id].triggers.value) {
        triggers := triggers[id := byId[id].triggers.value];
      }
    }
    assert affected[..|affected|] == affected;
    if IndexesContracts(inputs, byId) {
      TriggersForMeaning(inputs, byId, triggers);
    }
  }

  ghost predicate TriggersFor(f: Facts, triggers: map<string, seq<string>>) {
    forall evidence, id | id in f.affected :: FreshBy(f, triggers, evidence, id) <==> StrictlyFresh(f, evidence, id)
  }

  predicate FreshBy(f: Facts, triggers: map<string, seq<string>>, evidence: Evidence, id: string) {
    id in triggers && MatchesTriggers(evidence, triggers[id], f.state)
  }

  lemma TriggersForMeaning(inputs: Inputs, byId: map<string, Contract>, triggers: map<string, seq<string>>)
    requires IndexesContracts(inputs, byId)
    requires forall id <- triggers :: id in byId && byId[id].triggers == Some(triggers[id]) && Configured(triggers[id])
    requires forall id <- inputs.snapshot.affected ::
      id in byId && byId[id].triggers.Some? && Configured(byId[id].triggers.value) ==> id in triggers
    ensures TriggersFor(FactsOf(inputs), triggers)
  {
  }

  /** What one gate contributes for one record: touched, a role-bound claim, and whether it stays fresh. */
  method JudgeGate(f: Facts, gate: Gate, triggers: map<string, seq<string>>, entry: Evidence, risk: Risk)
      returns (touches: bool, claims: bool, gateFresh: bool)
    requires gate in f.gates
    ensures touches <==> TouchesGate(f, entry, gate)
    ensures TriggersFor(f, triggers) ==>
      (claims <==> TouchesGate(f, entry, gate) && GateRevalidated(f, entry, gate, risk) && ClaimsAt(entry, gate))
    ensures TriggersFor(f, triggers) ==>
      (gateFresh <==> (TouchesGate(f, entry, gate) ==>
        GateRoles(gate, risk).Some? && StrictlyFreshForGate(f, entry, gate)))
  {
    if !QuorumMandatory(f, gate) || gate.id !in entry.gates {
      return false, false, true;
    }
    if GateRoles(gate, risk).None? {
      return true, false, false;
    }
    var roleBound := entry.roles * GateRoles(gate, risk).value != {};
    var contractsFresh := true;
    for i := 0 to |gate.contracts|
      invariant contractsFresh <==>
        forall id <- gate.contracts[..i] | BehindGate(f, gate, id) :: FreshBy(f, triggers, entry, id)
    {
      var id := gate.contracts[i];
      assert gate.contracts[..i + 1] == gate.contracts[..i] + [id];
      if BehindGate(f, gate, id) && !FreshBy(f, triggers, entry, id) {
        contractsFresh := false;
      }
    }
    assert gate.contracts[..|gate.contracts|] == gate.contracts;
    touches, claims, gateFresh := true, roleBound && contractsFresh && ClaimsAt(entry, gate), contractsFresh;
  }

  /** The gate loop for one record: does it touch a mandatory gate, claim something, and stay fresh for all of them? */
  method JudgeGates(f: Facts, gates: seq<Gate>, triggers: map<string, seq<string>>, entry: Evidence, risk: Risk)
      returns (touches: bool, claims: bool, gatesFresh: bool)
    requires AsSet(gates) == f.gates
    ensures touches <==> TouchesAnyGate(f, entry)
    ensures TriggersFor(f, triggers) ==> (claims <==> ClaimsSomething(f, entry, risk))
    ensures TriggersFor(f, triggers) ==> (gatesFresh <==> AllGatesFresh(f, entry, risk))
  {
    touches, claims, gatesFresh := false, false, true;
    forall gate ensures gate in gates <==> gate in f.gates { assert gate in AsSet(gates) <==> gate in gates; }
    for i := 0 to |gates|
      invariant touches <==> exists gate <- gates[..i] :: TouchesGate(f, entry, gate)
      invariant TriggersFor(f, triggers) ==>
        (claims <==> exists gate <- gates[..i] ::
           TouchesGate(f, entry, gate) && GateRevalidated(f, entry, gate, risk) && ClaimsAt(entry, gate))
      invariant TriggersFor(f, triggers) ==>
        (gatesFresh <==> forall gate <- gates[..i] | TouchesGate(f, entry, gate) ::
           GateRoles(gate, risk).Some? && StrictlyFreshForGate(f, entry, gate))
    {
      assert gates[..i + 1] == gates[..i] + [gates[i]];
      assert gates[i] in gates[..i + 1];
      var touched, claimed, gateFresh := JudgeGate(f, gates[i], triggers, entry, risk);
      touches, claims, gatesFresh := touches || touched, claims || claimed, gatesFresh && gateFresh;
    }
    assert gates[..|gates|] == gates;
  }

  /** The invariant loop for one record. */
  method JudgeRules(f: Facts, invariants: seq<Invariant>, entry: Evidence) returns (touches: bool, rulesFresh: bool)
    requires AsSet(invariants) == f.invariants
    ensures touches <==> TouchesAnyRule(f, entry)
    ensures rulesFresh <==> AllRulesFresh(f, entry)
  {
    touches, rulesFresh := false, true;
    for i := 0 to |invariants|
      invariant touches <==> exists rule <- invariants[..i] :: TouchesRule(f, entry, rule)
      invariant rulesFresh <==>
        forall rule <- invariants[..i] | TouchesRule(f, entry, rule) :: MatchesTriggers(entry, rule.triggers, f.state)
    {
      var rule := invariants[i];
      assert invariants[..i + 1] == invariants[..i] + [rule];
      assert rule in AsSet(invariants) && rule in invariants[..i + 1];
      if !rule.required || !Configured(rule.triggers) || rule.id !in entry.invariants { continue; }
      touches := true;
      if !MatchesTriggers(entry, rule.triggers, f.state) {
        rulesFresh := false;
      }
    }
    assert invariants[..|invariants|] == invariants;
    assert forall rule :: rule in invariants <==>
      rule in f.invariants by { assert forall rule :: rule in AsSet(invariants) <==> rule in invariants; }
  }

  /** What one quorum layer asks of a record. */
  predicate Eligible(f: Facts, entry: Evidence, risk: Risk, strict: bool) {
    FullyFresh(f, entry, risk) && if strict then Round11Participates(f, entry, risk)
      else Round8Participates(f, entry, risk)
  }

  /** The eligible records of one quorum layer. */
  method CollectEligible(inputs: Inputs, current: set<Evidence>, triggers: map<string, seq<string>>, risk: Risk,
                         strict: bool)
      returns (eligible: set<Evidence>)
    ensures TriggersFor(FactsOf(inputs), triggers) ==>
      eligible == set entry <- current | Eligible(FactsOf(inputs), entry, risk, strict)
  {
    var f := FactsOf(inputs);
    eligible := {};
    var pending := current;
    while pending != {}
      invariant pending <= current
      invariant TriggersFor(f, triggers) ==>
        forall entry :: entry in eligible <==> entry in current - pending && Eligible(f, entry, risk, strict)
      decreases pending
    {
      var entry :| entry in pending;
      pending := pending - {entry};
      var touchesGate, claims, gatesFresh := JudgeGates(f, inputs.gates, triggers, entry, risk);
      var touchesRule, rulesFresh := JudgeRules(f, inputs.invariants, entry);
      var qualifyingRule := touchesRule && entry.roles * RequiredRoles(risk) != {};
      var selected := SelectedSomewhere(f, entry);
      var participates :=
        if strict then claims || (!touchesGate && qualifyingRule) || ((touchesGate || touchesRule) && selected)
        else claims || selected || qualifyingRule;
      if participates && gatesFresh && rulesFresh {
        eligible := eligible + {entry};
      }
    }
  }

  // ----- the two layers -----

  method CheckClassQuorum(eligible: set<Evidence>) returns (blockers: seq<Blocker>)
    ensures blockers == [] <==> |Classes(eligible)| >= 2 && IndependentClassPair(eligible)
  {
    if |Classes(eligible)| < 2 {
      return [Blocker(QuorumEvidence, "")];
    }
    if !IndependentClassPair(eligible) {
      return [Blocker(QuorumEvidence, "")];
    }
    blockers := [];
  }

  /** Countercheck claims of every mandatory gate must be independent of its implementation records. */
  method CheckCounterclaims(f: Facts, gates: seq<Gate>, risk: Risk) returns (blockers: seq<Blocker>)
    requires AsSet(gates) == f.gates
    ensures blockers == [] <==>
      forall gate <- f.gates | QuorumMandatory(f, gate) :: CounterclaimsIndependent(GateHolders(f, gate, risk), gate)
  {
    blockers := [];
    for i := 0 to |gates|
      invariant blockers == [] <==>
        forall gate <- gates[..i] | QuorumMandatory(f, gate) ::
          CounterclaimsIndependent(GateHolders(f, gate, risk), gate)
    {
      var gate := gates[i];
      assert gates[..i + 1] == gates[..i] + [gate];
      if !QuorumMandatory(f, gate) { continue; }
      var errors := CheckGateClaims(GateHolders(f, gate, risk), gate);
      blockers := blockers + errors;
    }
    assert gates[..|gates|] == gates;
    assert forall gate :: gate in gates <==>
      gate in f.gates by { assert forall gate :: gate in AsSet(gates) <==> gate in gates; }
  }

  method CheckGateClaims(holders: set<Evidence>, gate: Gate) returns (blockers: seq<Blocker>)
    ensures blockers == [] <==> CounterclaimsIndependent(holders, gate)
  {
    blockers := [];
    if !Configured(gate.requirements) { return []; }
    var makers := WithRole(holders, Implementation);
    for i := 0 to |gate.requirements|
      invariant blockers == [] <==> forall requirement <- gate.requirements[..i] |
        requirement in gate.requirementRoles && gate.requirementRoles[requirement].Countercheck? ::
          Claimers(holders, gate.id, requirement) == {} || makers == {} ||
          AnyIndependent(makers, Claimers(holders, gate.id, requirement))
    {
      var requirement := gate.requirements[i];
      assert gate.requirements[..i + 1] == gate.requirements[..i] + [requirement];
      if requirement !in gate.requirementRoles || !gate.requirementRoles[requirement].Countercheck? { continue; }
      var claimers := Claimers(holders, gate.id, requirement);
      if claimers != {} && makers != {} && !AnyIndependent(makers, claimers) {
        blockers := blockers + [Blocker(RequirementEvidence, requirement)];
      }
    }
    assert gate.requirements[..|gate.requirements|] == gate.requirements;
  }

  /** `_round8_revalidated_quorum_blockers`, called only after the earlier layers accepted. */
  method Round8Blockers(inputs: Inputs) returns (blockers: seq<Blocker>)
    ensures Unambiguous(inputs) ==> (blockers == [] <==> Round8Accepts(FactsOf(inputs)))
  {
    var f := FactsOf(inputs);
    var contractById := ContractIndex(inputs);
    var _, risk := EffectiveRisk(inputs, contractById);
    if Rank(risk) < 3 { return []; }
    var triggers := QuorumTriggers(inputs, contractById);
    var current := CurrentEntries(inputs);
    var eligible := CollectEligible(inputs, current, triggers, risk, false);
    assert Unambiguous(inputs) ==> risk == LaterRisk(f) && eligible == Round8Eligible(f, risk);
    var claimErrors := CheckCounterclaims(f, inputs.gates, risk);
    var quorumErrors := CheckClassQuorum(eligible);
    blockers := claimErrors + quorumErrors;
  }

  /** `_strict_semantic_quorum_blockers`. */
  method Round11Blockers(inputs: Inputs) returns (blockers: seq<Blocker>)
    ensures Unambiguous(inputs) ==> (blockers == [] <==> Round11Accepts(FactsOf(inputs)))
  {
    var f := FactsOf(inputs);
    var contractById := ContractIndex(inputs);
    var _, risk := EffectiveRisk(inputs, contractById);
    if Rank(risk) < 3 { return []; }
    var triggers := QuorumTriggers(inputs, contractById);
    var current := CurrentEntries(inputs);
    var eligible := CollectEligible(inputs, current, triggers, risk, true);
    assert Unambiguous(inputs) ==> risk == LaterRisk(f) && eligible == Round11Eligible(f, risk);
    blockers := CheckClassQuorum(eligible);
  }

  // ----- the chain -----

  method EvaluateBase(inputs: Inputs) returns (verdict: Verdict)
    ensures verdict != Block <==> Unambiguous(inputs) && RequestAccepted(inputs) && BaseAccepts(FactsOf(inputs))
    ensures verdict != Block ==> verdict == if inputs.protection.value then OwnerRequired else Allow
  {
    var blockers := BaseBlockers(inputs);
    if blockers != [] { return Block; }
    verdict := if inputs.protection.value then OwnerRequired else Allow;
  }

  /** The legacy wrapper always runs both evaluations; the extra blockers can only turn the verdict into BLOCK. */
  method EvaluateLegacy(inputs: Inputs, screenClear: bool) returns (verdict: Verdict)
    ensures verdict != Block <==>
      screenClear && Unambiguous(inputs) && RequestAccepted(inputs) && BaseAccepts(FactsOf(inputs)) &&
      HardeningAccepts(FactsOf(inputs))
    ensures verdict != Block ==> verdict == if inputs.protection.value then OwnerRequired else Allow
  {
    if !screenClear { return Block; }
    verdict := EvaluateBase(inputs);
    var extra := HardeningBlockers(inputs);
    if extra != [] { verdict := Block; }
  }

  method EvaluateRound8(inputs: Inputs, screenClear: bool, legacyScreenClear: bool) returns (verdict: Verdict)
    ensures verdict != Block <==>
      screenClear && legacyScreenClear && Unambiguous(inputs) && RequestAccepted(inputs) &&
      BaseAccepts(FactsOf(inputs)) &&
      HardeningAccepts(FactsOf(inputs)) && Round8Accepts(FactsOf(inputs))
    ensures verdict != Block ==> verdict == if inputs.protection.value then OwnerRequired else Allow
  {
    if !screenClear { return Block; }
    verdict := EvaluateLegacy(inputs, legacyScreenClear);
    if verdict == Block { return; }
    var extra := Round8Blockers(inputs);
    if extra != [] { verdict := Block; }
  }

  /** The whole chain returns the specified verdict, which `ReleaseEquivalence.VerdictExactly` ties to the policy. */
  method Evaluate(inputs: Inputs, coreScreenClear: bool, round8ScreenClear: bool, legacyScreenClear: bool)
      returns (verdict: Verdict)
    ensures verdict == VerdictOf(inputs, coreScreenClear && round8ScreenClear && legacyScreenClear)
  {
    if !coreScreenClear { return Block; }
    verdict := EvaluateRound8(inputs, round8ScreenClear, legacyScreenClear);
    if verdict == Block { return; }
    var extra := Round11Blockers(inputs);
    if extra != [] { verdict := Block; }
  }
}
