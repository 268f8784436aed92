/** What each release layer asks by itself, on the fields of the request, whatever the other layers say. */
module ReleaseLayerMeaning {
  import opened Wrappers
  import opened ReleaseRecords
  import opened ReleaseLayers
  import opened ReleaseProperties
  import opened ReleasePolicy
  import opened ReleaseEquivalence

  /** What the hardening layer asks of a bound record: all that the base asks, but for its roles. */
  lemma HardeningCurrentExactly(inputs: Inputs, evidence: Evidence, binding: Binding)
    requires DocumentsAgree(inputs)
    ensures CurrentForHardening(FactsOf(inputs), evidence, binding) <==>
      && evidence.status != NotCurrent
      && evidence.commit == inputs.head && binding.commit == inputs.head
      && evidence.target == inputs.target && binding.target == inputs.target
      && !evidence.invalidated && evidence.fingerprint == inputs.fingerprint && evidence.provenance.Some?
      && evidence.class_ != "" && evidence.class_ in inputs.policy && ClassUsable(inputs.policy[evidence.class_])
      && InTime(inputs, inputs.policy[evidence.class_], evidence.observedAt)
      && AllUnchanged(inputs, evidence, inputs.policy[evidence.class_].triggers)
  {
    if evidence.class_ in inputs.policy {
      TriggersMean(inputs, evidence, inputs.policy[evidence.class_].triggers);
      assert PolicyUsable(inputs.policy, evidence.class_) <==>
        evidence.class_ in inputs.policy && ClassUsable(inputs.policy[evidence.class_]);
    }
  }

  /** Who takes part in the base quorum: selected in a needed role, bound to a gate in its role, or to an invariant. */
  lemma BaseParticipatesExactly(inputs: Inputs, evidence: Evidence, gates: set<Gate>, rules: set<string>, risk: Risk)
    ensures BaseParticipates(FactsOf(inputs), evidence, gates, rules, risk) <==>
      || (exists role <- evidence.roles :: Needed(risk, role) && Chosen(inputs, role, evidence))
      || (exists gate <- gates :: RolesUsable(gate, risk) && gate.id in evidence.gates &&
            exists role <- evidence.roles :: Asked(gate, risk, role))
      || (NeededIn(evidence, risk) && exists rule <- rules :: rule in evidence.invariants)
  {
    var f := FactsOf(inputs);
    forall role ensures Needed(risk, role) <==> role in RequiredRoles(risk) { RolesMean(risk, role); }
    NeededMeans(evidence, risk);
    forall gate ensures BoundInRole(evidence, gate, risk) <==>
        RolesUsable(gate, risk) && gate.id in evidence.gates && exists role <- evidence.roles :: Asked(gate, risk, role)
    {
      BoundMeansAsked(evidence, gate, risk);
    }
    assert (exists role <- RequiredRoles(risk) :: HasField(role) && SelectedFor(f, role, evidence)) <==>
      exists role <- evidence.roles :: Needed(risk, role) && Chosen(inputs, role, evidence);
  }

  lemma BoundMeansAsked(evidence: Evidence, gate: Gate, risk: Risk)
    ensures BoundInRole(evidence, gate, risk) <==>
      RolesUsable(gate, risk) && gate.id in evidence.gates && exists role <- evidence.roles :: Asked(gate, risk, role)
  {
    UsableMeans(gate, risk);
    if RolesUsable(gate, risk) {
      var roles := GateRoles(gate, risk).value;
      if role :| role in evidence.roles && Asked(gate, risk, role) { assert role in evidence.roles * roles; }
      if role :| role in evidence.roles * roles { assert Asked(gate, risk, role); }
    }
  }

  /**
   Round 8 on one gate: a countercheck requirement that some record claims, beside some implementation record, is
   claimed by a record apart from some implementation record.
   */
  lemma CounterclaimsExactly(holders: set<Evidence>, gate: Gate)
    ensures CounterclaimsIndependent(holders, gate) <==>
      (gate.requirements != [] && DistinctNames(gate.requirements) ==>
         forall requirement <- gate.requirements, maker <- holders, checker <- holders ::
           requirement in gate.requirementRoles && gate.requirementRoles[requirement] == Countercheck &&
           Implementation in maker.roles && StatesInRole(checker, gate, requirement) ==>
             ApartClaim(holders, gate, requirement))
  {
    NamesMeanConfigured(gate.requirements);
    forall requirement | requirement in gate.requirements && requirement in gate.requirementRoles &&
      gate.requirementRoles[requirement] == Countercheck
      ensures ApartClaim(holders, gate, requirement) <==>
        AnyIndependent(WithRole(holders, Implementation), Claimers(holders, gate.id, requirement))
      ensures Claimers(holders, gate.id, requirement) == {} <==>
        forall checker <- holders :: !StatesInRole(checker, gate, requirement)
      ensures WithRole(holders, Implementation) == {} <==> forall maker <- holders :: Implementation !in maker.roles
    {
      ApartClaimMeans(holders, gate, requirement);
    }
  }

  ghost predicate ApartClaim(holders: set<Evidence>, gate: Gate, requirement: string) {
    exists maker <- holders, checker <- holders ::
      Implementation in maker.roles && StatesInRole(checker, gate, requirement) && Apart(maker, checker)
  }

  lemma ApartClaimMeans(holders: set<Evidence>, gate: Gate, requirement: string)
    requires requirement in gate.requirementRoles && gate.requirementRoles[requirement] == Countercheck
    ensures ApartClaim(holders, gate, requirement) <==>
      AnyIndependent(WithRole(holders, Implementation), Claimers(holders, gate.id, requirement))
    ensures Claimers(holders, gate.id, requirement) == {} <==>
      forall checker <- holders :: !StatesInRole(checker, gate, requirement)
    ensures WithRole(holders, Implementation) == {} <==> forall maker <- holders :: Implementation !in maker.roles
  {
    forall evidence
      ensures evidence in Claimers(holders, gate.id, requirement) <==>
        evidence in holders && StatesInRole(evidence, gate, requirement)
    {
      StatesMeans(evidence, gate, requirement);
    }
    forall evidence
      ensures evidence in WithRole(holders, Implementation) <==> evidence in holders && Implementation in evidence.roles
    {}
    forall a, b ensures Apart(a, b) <==> Independent(a, b) { ApartMeans(a, b); }
  }

  /** A row counts if it lists gates and none of them is empty. */
  lemma RowUsableExactly(mapping: Mapping)
    ensures MappingUsable(mapping) <==>
      |mapping.gates| > 0 && forall k :: 0 <= k < |mapping.gates| ==> mapping.gates[k] != ""
  {
  }

  /** The quorum layers look at required invariants with usable triggers only. */
  lemma TouchesRuleExactly(inputs: Inputs, evidence: Evidence, rule: Invariant)
    ensures TouchesRule(FactsOf(inputs), evidence, rule) <==>
      rule in inputs.invariants && rule.required && rule.triggers != [] && DistinctNames(rule.triggers) &&
      rule.id in evidence.invariants
  {
    Members(inputs);
    NamesMeanConfigured(rule.triggers);
  }

  /** The base quorum: a classified record, and from R3 on two classes and two records of different classes apart. */
  lemma QuorumExactly(records: set<Evidence>, risk: Risk)
    ensures !Serious(risk) ==> (Quorum(records, risk) <==> exists evidence <- records :: evidence.class_ != "")
    ensures Serious(risk) ==>
      (Quorum(records, risk) <==>
         (exists a <- records, b <- records :: a.class_ != "" && b.class_ != "" && a.class_ != b.class_) &&
         (exists a <- records, b <- records :: a.class_ != b.class_ && Apart(a, b)))
  {
    RanksMean(risk, risk);
    var classes := Classes(records);
    forall a, b ensures Apart(a, b) <==> Independent(a, b) { ApartMeans(a, b); }
    if evidence :| evidence in records && evidence.class_ != "" { assert evidence.class_ in classes; }
    if |classes| >= 1 { var class_ :| class_ in classes; }
    if a, b :| a in records && b in records && a.class_ != "" && b.class_ != "" && a.class_ != b.class_ {
      SubsetCardinality({a.class_, b.class_}, classes);
    }
    if |classes| >= 2 { TwoMembers(classes); }
  }

  lemma TwoMembers(names: set<string>)
    requires |names| >= 2
    ensures exists a, b :: a in names && b in names && a != b
  {
    var a :| a in names;
    assert |names - {a}| >= 1;
    var b :| b in names - {a};
  }

  /** The gates a quorum layer looks at. */
  ghost predicate CountsGate(inputs: Inputs, evidence: Evidence, gate: Gate) {
    gate in inputs.gates && gate.id in evidence.gates &&
    (gate.applicable ||
     (gate.contracts != [] && DistinctNames(gate.contracts) &&
      exists id <- gate.contracts :: id in inputs.snapshot.affected))
  }

  /** Taken in the current state of every affected contract behind the gate, each of which must be watched. */
  ghost predicate StrictFor(inputs: Inputs, evidence: Evidence, gate: Gate) {
    gate.contracts != [] && DistinctNames(gate.contracts) ==>
      forall id <- gate.contracts :: id in inputs.snapshot.affected ==> WatchedAndUnchanged(inputs, evidence, id)
  }

  ghost predicate WatchedAndUnchanged(inputs: Inputs, evidence: Evidence, id: string) {
    exists contract <- inputs.contracts ::
      contract.id == id && contract.triggers.Some? && contract.triggers.value != [] &&
      DistinctNames(contract.triggers.value) && AllUnchanged(inputs, evidence, contract.triggers.value)
  }

  ghost predicate CountsRule(inputs: Inputs, evidence: Evidence, rule: Invariant) {
    rule in inputs.invariants && rule.required && rule.triggers != [] && DistinctNames(rule.triggers) &&
    rule.id in evidence.invariants
  }

  ghost predicate FreshThroughout(inputs: Inputs, evidence: Evidence, risk: Risk) {
    && (forall gate :: CountsGate(inputs, evidence, gate) ==>
          RolesUsable(gate, risk) && StrictFor(inputs, evidence, gate))
    && (forall rule :: CountsRule(inputs, evidence, rule) ==> AllUnchanged(inputs, evidence, rule.triggers))
  }

  ghost predicate ClaimsGate(inputs: Inputs, evidence: Evidence, risk: Risk, gate: Gate) {
    && CountsGate(inputs, evidence, gate) && RolesUsable(gate, risk) && StrictFor(inputs, evidence, gate)
    && (exists role <- evidence.roles :: Asked(gate, risk, role))
    && gate.requirements != [] && DistinctNames(gate.requirements)
    && exists requirement <- gate.requirements :: StatesInRole(evidence, gate, requirement)
  }

  lemma StrictMeans(inputs: Inputs, evidence: Evidence, gate: Gate)
    requires DocumentsAgree(inputs)
    ensures StrictlyFreshForGate(FactsOf(inputs), evidence, gate) <==> StrictFor(inputs, evidence, gate)
    ensures TouchesGate(FactsOf(inputs), evidence, gate) <==> CountsGate(inputs, evidence, gate)
  {
    Members(inputs);
    NamesMeanConfigured(gate.contracts);
    forall id ensures StrictlyFresh(FactsOf(inputs), evidence, id) <==> WatchedAndUnchanged(inputs, evidence, id) {
      WatchedMeans(inputs, evidence, id);
    }
  }

  lemma WatchedMeans(inputs: Inputs, evidence: Evidence, id: string)
    requires DocumentsAgree(inputs)
    ensures StrictlyFresh(FactsOf(inputs), evidence, id) <==> WatchedAndUnchanged(inputs, evidence, id)
  {
    Members(inputs);
    forall triggers
      ensures AllUnchanged(inputs, evidence, triggers) <==>
        MatchesTriggers(evidence, triggers, FactsOf(inputs).state)
      ensures triggers != [] && DistinctNames(triggers) <==> Configured(triggers)
    {
      TriggersMean(inputs, evidence, triggers);
      NamesMeanConfigured(triggers);
    }
  }

  lemma ClaimsGateMeans(inputs: Inputs, evidence: Evidence, risk: Risk, gate: Gate)
    requires DocumentsAgree(inputs)
    ensures ClaimsGate(inputs, evidence, risk, gate) <==>
      var f := FactsOf(inputs);
      TouchesGate(f, evidence, gate) && GateRevalidated(f, evidence, gate, risk) && ClaimsAt(evidence, gate)
  {
    StrictMeans(inputs, evidence, gate);
    BoundMeansAsked(evidence, gate, risk);
    UsableMeans(gate, risk);
    NamesMeanConfigured(gate.requirements);
    forall requirement ensures States(evidence, gate, requirement) <==> Claims(evidence, gate.id, requirement) {
      StatesMeans(evidence, gate, requirement);
    }
  }

  lemma FreshThroughoutMeans(inputs: Inputs, evidence: Evidence, risk: Risk)
    requires DocumentsAgree(inputs)
    ensures FullyFresh(FactsOf(inputs), evidence, risk) <==> FreshThroughout(inputs, evidence, risk)
  {
    Members(inputs);
    forall gate
      ensures StrictlyFreshForGate(FactsOf(inputs), evidence, gate) <==> StrictFor(inputs, evidence, gate)
      ensures TouchesGate(FactsOf(inputs), evidence, gate) <==> CountsGate(inputs, evidence, gate)
      ensures RolesUsable(gate, risk) <==> GateRoles(gate, risk).Some?
    {
      StrictMeans(inputs, evidence, gate);
      UsableMeans(gate, risk);
    }
    forall rule
      ensures TouchesRule(FactsOf(inputs), evidence, rule) <==> CountsRule(inputs, evidence, rule)
      ensures AllUnchanged(inputs, evidence, rule.triggers) <==>
        MatchesTriggers(evidence, rule.triggers, FactsOf(inputs).state)
    {
      TouchesRuleExactly(inputs, evidence, rule);
      TriggersMean(inputs, evidence, rule.triggers);
    }
  }

  /** Whom the two quorum layers count among the current records, each by its own rule. */
  lemma EligibleExactly(inputs: Inputs, evidence: Evidence, risk: Risk)
    requires DocumentsAgree(inputs) && evidence in LaterCurrent(FactsOf(inputs))
    ensures evidence in Round8Eligible(FactsOf(inputs), risk) <==>
      FreshThroughout(inputs, evidence, risk) &&
      ((exists gate :: ClaimsGate(inputs, evidence, risk, gate)) ||
       (exists role <- evidence.roles :: Chosen(inputs, role, evidence)) ||
       ((exists rule :: CountsRule(inputs, evidence, rule)) && NeededIn(evidence, risk)))
    ensures evidence in Round11Eligible(FactsOf(inputs), risk) <==>
      FreshThroughout(inputs, evidence, risk) &&
      ((exists gate :: ClaimsGate(inputs, evidence, risk, gate)) ||
       ((forall gate :: !CountsGate(inputs, evidence, gate)) &&
        (exists rule :: CountsRule(inputs, evidence, rule)) && NeededIn(evidence, risk)) ||
       (((exists gate :: CountsGate(inputs, evidence, gate)) || (exists rule :: CountsRule(inputs, evidence, rule))) &&
        exists role <- evidence.roles :: Chosen(inputs, role, evidence)))
  {
    FreshThroughoutMeans(inputs, evidence, risk);
    SelectedMeans(inputs, FactsOf(inputs), evidence);
    NeededMeans(evidence, risk);
    ParticipationMeans(inputs, evidence, risk);
  }

  lemma ParticipationMeans(inputs: Inputs, evidence: Evidence, risk: Risk)
    requires DocumentsAgree(inputs)
    ensures ClaimsSomething(FactsOf(inputs), evidence, risk) <==>
      exists gate :: ClaimsGate(inputs, evidence, risk, gate)
    ensures TouchesAnyGate(FactsOf(inputs), evidence) <==> exists gate :: CountsGate(inputs, evidence, gate)
    ensures TouchesAnyRule(FactsOf(inputs), evidence) <==> exists rule :: CountsRule(inputs, evidence, rule)
  {
    Members(inputs);
    forall gate
      ensures ClaimsGate(inputs, evidence, risk, gate) <==>
        TouchesGate(FactsOf(inputs), evidence, gate) && GateRevalidated(FactsOf(inputs), evidence, gate, risk) &&
        ClaimsAt(evidence, gate)
      ensures TouchesGate(FactsOf(inputs), evidence, gate) <==> CountsGate(inputs, evidence, gate)
    {
      ClaimsGateMeans(inputs, evidence, risk, gate);
      StrictMeans(inputs, evidence, gate);
    }
    forall rule ensures TouchesRule(FactsOf(inputs), evidence, rule) <==> CountsRule(inputs, evidence, rule) {
      TouchesRuleExactly(inputs, evidence, rule);
    }
  }
}
