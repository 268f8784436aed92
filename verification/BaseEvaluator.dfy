/**
 The base evaluator: blocker lists grown in loops, proved to be empty exactly when the base layer accepts
 (scripts/_fanmind_release_decision_base.py, `_registry_by_id` to `evaluate_release_decision`).
 */
module BaseEvaluator {
  import opened Wrappers
  import opened ReleaseRecords
  import opened ReleaseLayers

  datatype Area =
    | RegistryEntry | InvariantSet | InvariantRule | Scope | ContractStatus | ImpactMap | GateStatus | RiskInput
    | SnapshotInput | Authentication | EvidenceBinding | EvidenceRole | GateEvidence | InvariantEvidence
      | QuorumEvidence
    | Revalidation | RequirementEvidence

  /** Why a release is blocked, and for which id. */
  datatype Blocker = Blocker(area: Area, id: string)

  // ----- registries -----

  lemma UniqueExtend<T(!new)>(items: seq<T>, idOf: T -> string, i: nat)
    requires i < |items|
    ensures UniqueRegistry(items[..i + 1], idOf) <==>
      UniqueRegistry(items[..i], idOf) && idOf(items[i]) != "" &&
      forall item <- items[..i] :: idOf(item) != idOf(items[i])
  {
    var front, last := items[..i], items[i];
    assert items[..i + 1] == front + [last];
    assert multiset(items[..i + 1]) == multiset(front) + multiset{last};
    assert last in items[..i + 1];
    assert forall item <- front :: item in items[..i + 1];
  }

  /** `_registry_by_id`: the first record of each id, and a blocker for every empty or repeated id. */
  method RegistryById<T(==, !new)>(items: seq<T>, idOf: T -> string)
      returns (index: map<string, T>, blockers: seq<Blocker>)
    ensures blockers == [] <==> UniqueRegistry(items, idOf)
    ensures forall id <- index :: id != "" && index[id] in items && idOf(index[id]) == id
    ensures forall item <- items :: idOf(item) != "" ==> idOf(item) in index
    ensures blockers == [] ==> forall item <- items :: idOf(item) in index && index[idOf(item)] == item
  {
    index, blockers := map[], [];
    for i := 0 to |items|
      invariant blockers == [] <==> UniqueRegistry(items[..i], idOf)
      invariant forall id <- index :: id != "" && index[id] in items[..i] && idOf(index[id]) == id
      invariant forall item <- items[..i] :: idOf(item) != "" ==> idOf(item) in index
    {
      UniqueExtend(items, idOf, i);
      var item := items[i];
      assert items[..i + 1] == items[..i] + [item];
      if idOf(item) == "" {
        blockers := blockers + [Blocker(RegistryEntry, "")];
      } else if idOf(item) in index {
        assert index[idOf(item)] in items[..i];
        blockers := blockers + [Blocker(RegistryEntry, idOf(item))];
      } else {
        index := index[idOf(item) := item];
      }
    }
    assert items[..|items|] == items;
  }

  // ----- registered scope -----

  method CheckInvariants(inputs: Inputs) returns (rules: set<string>, blockers: seq<Blocker>)
    ensures blockers == [] <==> UniqueRegistry(inputs.invariants, InvariantId) && InvariantsEnforced(FactsOf(inputs))
    ensures blockers == [] ==> rules == RuleIds(FactsOf(inputs))
  {
    var byId, errors := RegistryById(inputs.invariants, InvariantId);
    assert RuleIds(FactsOf(inputs)) == set rule <- inputs.invariants :: rule.id;
    blockers, rules := errors, {};
    if byId.Keys != REQUIRED_INVARIANTS {
      blockers := blockers + [Blocker(InvariantSet, "")];
    }
    var pending := REQUIRED_INVARIANTS;
    while pending != {}
      invariant pending <= REQUIRED_INVARIANTS
      invariant blockers == [] <==>
        (errors == [] && byId.Keys == REQUIRED_INVARIANTS &&
         forall id <- byId :: id !in pending ==> byId[id].required && byId[id].enforced)
      invariant blockers == [] ==> rules == REQUIRED_INVARIANTS - pending
      decreases pending
    {
      var id :| id in pending;
      pending := pending - {id};
      if id in byId {
        if !byId[id].required {
          blockers := blockers + [Blocker(InvariantRule, id)];
        } else {
          rules := rules + {id};
          if !byId[id].enforced {
            blockers := blockers + [Blocker(InvariantRule, id)];
          }
        }
      }
    }
    RegisteredRules(inputs.invariants, byId, errors);
  }

  lemma RegisteredRules(items: seq<Invariant>, byId: map<string, Invariant>, errors: seq<Blocker>)
    requires errors == [] <==> UniqueRegistry(items, InvariantId)
    requires forall id <- byId :: id != "" && byId[id] in items && InvariantId(byId[id]) == id
    requires errors == [] ==> forall item <- items :: InvariantId(item) in byId && byId[InvariantId(item)] == item
    ensures errors == [] ==> byId.Keys == set rule <- items :: rule.id
    ensures errors == [] ==>
      ((forall rule <- items :: rule.required && rule.enforced) <==>
        forall id <- byId :: byId[id].required && byId[id].enforced)
  {
  }

  method NormalizeAffected(affected: seq<string>) returns (normalized: seq<string>, blockers: seq<Blocker>)
    ensures blockers == [] <==> affected != [] && UniqueRegistry(affected, SelfId)
    ensures blockers == [] ==> normalized == affected
  {
    normalized, blockers := [], [];
    if affected == [] {
      return [], [Blocker(Scope, "")];
    }
    for i := 0 to |affected|
      invariant blockers == [] <==> UniqueRegistry(affected[..i], SelfId)
      invariant blockers == [] ==> normalized == affected[..i]
      invariant forall id :: id in normalized <==> id in affected[..i] && id != ""
    {
      UniqueExtend(affected, SelfId, i);
      var id := affected[i];
      assert affected[..i + 1] == affected[..i] + [id];
      if id == "" {
        blockers := blockers + [Blocker(Scope, "")];
      } else if id in normalized {
        assert SelfId(id) == id;
        blockers := blockers + [Blocker(Scope, id)];
      } else {
        normalized := normalized + [id];
      }
    }
    assert affected[..|affected|] == affected;
  }

  method CheckScope(inputs: Inputs) returns (affected: seq<string>, byId: map<string, Contract>, blockers: seq<Blocker>)
    ensures blockers == [] <==>
      UniqueRegistry(inputs.contracts, ContractId) && UniqueRegistry(inputs.snapshot.affected, SelfId) &&
      ContractsInScope(FactsOf(inputs))
    ensures blockers == [] ==> affected == inputs.snapshot.affected
    ensures blockers == [] ==>
      forall contract <- inputs.contracts :: contract.id in byId && byId[contract.id] == contract
    ensures forall id <- byId :: byId[id] in inputs.contracts && byId[id].id == id
  {
    var errors, scopeErrors;
    byId, errors := RegistryById(inputs.contracts, ContractId);
    affected, scopeErrors := NormalizeAffected(inputs.snapshot.affected);
    blockers := errors + scopeErrors;
    for i := 0 to |affected|
      invariant blockers == [] <==>
        (errors == [] && scopeErrors == [] && forall id <- affected[..i] :: id in byId && byId[id].active)
    {
      assert affected[..i + 1] == affected[..i] + [affected[i]];
      var id := affected[i];
      if id !in byId {
        blockers := blockers + [Blocker(Scope, id)];
      } else if !byId[id].active {
        blockers := blockers + [Blocker(ContractStatus, id)];
      }
    }
    assert affected[..|affected|] == affected;
    if AsSet(affected) != byId.Keys {
      blockers := blockers + [Blocker(Scope, "")];
    }
    forall contract | contract in inputs.contracts ensures ContractId(contract) == contract.id {}
    forall id | id in byId ensures ContractId(byId[id]) == byId[id].id {}
    if errors == [] && scopeErrors == [] {
      ScopeMeaning(inputs, affected, byId);
    }
  }

  lemma ScopeMeaning(inputs: Inputs, affected: seq<string>, byId: map<string, Contract>)
    requires affected == inputs.snapshot.affected && affected != []
    requires forall contract <- inputs.contracts :: contract.id in byId && byId[contract.id] == contract
    requires forall id <- byId :: byId[id] in inputs.contracts && byId[id].id == id
    ensures ContractsInScope(FactsOf(inputs)) <==>
      (AsSet(affected) == byId.Keys && forall id <- affected :: id in byId && byId[id].active)
  {
    var f := FactsOf(inputs);
    assert affected[0] in AsSet(affected);
    assert ContractIds(f) == byId.Keys by {
      forall id | id in byId ensures id in ContractIds(f) { assert byId[id] in f.contracts; }
      forall id | id in ContractIds(f)
        ensures id in byId
      {
        var contract :| contract in f.contracts && contract.id == id;
      }
    }
    if AsSet(affected) == byId.Keys {
      forall contract | contract in f.contracts
        ensures contract.id in affected
      {
        assert contract.id in AsSet(affected);
      }
      forall id | id in affected ensures id in byId && byId[id] in f.contracts { assert id in AsSet(affected); }
    }
  }

  // ----- impact map and gates -----

  /** `_required_gate_ids`. */
  method RequiredGateIds(affected: seq<string>, mappings: seq<Mapping>)
      returns (gates: set<string>, blockers: seq<Blocker>)
    ensures blockers == [] <==>
      (UniqueRegistry(mappings, MappingId) &&
       forall id <- affected :: exists mapping <- mappings :: mapping.contract == id && MappingUsable(mapping))
    ensures blockers == [] ==>
      gates == set mapping <- mappings, gate <- mapping.gates | mapping.contract in affected :: gate
  {
    var byContract, errors := RegistryById(mappings, MappingId);
    forall id | id in byContract ensures MappingId(byContract[id]) == byContract[id].contract {}
    forall mapping | mapping in mappings ensures MappingId(mapping) == mapping.contract {}
    blockers, gates := errors, {};
    for i := 0 to |affected|
      invariant blockers == [] <==>
        errors == [] && forall id <- affected[..i] :: id in byContract && MappingUsable(byContract[id])
      invariant blockers == [] ==> gates == set id <- affected[..i], gate <- byContract[id].gates :: gate
    {
      var id := affected[i];
      assert affected[..i + 1] == affected[..i] + [id];
      if id !in byContract {
        blockers := blockers + [Blocker(ImpactMap, id)];
        continue;
      }
      var mapped := byContract[id].gates;
      if mapped == [] {
        blockers := blockers + [Blocker(ImpactMap, id)];
        continue;
      }
      ghost var before, known := blockers, gates;
      for j := 0 to |mapped|
        invariant blockers == [] <==> before == [] && "" !in mapped[..j]
        invariant blockers == [] ==> gates == known + AsSet(mapped[..j])
      {
        assert mapped[..j + 1] == mapped[..j] + [mapped[j]];
        if mapped[j] == "" {
          blockers := blockers + [Blocker(ImpactMap, id)];
        } else {
          gates := gates + {mapped[j]};
        }
      }
      assert mapped[..|mapped|] == mapped;
    }
    assert affected[..|affected|] == affected;
    if blockers == [] {
      forall gate
        ensures gate in gates <==> exists mapping <- mappings :: mapping.contract in affected && gate in mapping.gates
      {
        if gate in gates {
          var id :| id in affected && gate in byContract[id].gates;
          assert byContract[id] in mappings;
        }
      }
    }
  }

  method CheckGates(gates: seq<Gate>, required: set<string>)
      returns (byId: map<string, Gate>, mandatory: set<string>, blockers: seq<Blocker>)
    ensures blockers == [] <==>
      (UniqueRegistry(gates, GateId) &&
      forall id <- mandatory :: exists gate <- gates :: gate.id == id && gate.verified)
    ensures UniqueRegistry(gates, GateId) ==> mandatory == required + (set gate <- gates | gate.applicable :: gate.id)
    ensures forall id <- byId :: byId[id] in gates && byId[id].id == id
    ensures UniqueRegistry(gates, GateId) ==> forall gate <- gates :: gate.id in byId && byId[gate.id] == gate
  {
    var errors;
    byId, errors := RegistryById(gates, GateId);
    forall id | id in byId ensures GateId(byId[id]) == byId[id].id {}
    forall gate | gate in gates ensures GateId(gate) == gate.id {}
    blockers := errors;
    var explicit := set id <- byId | byId[id].applicable;
    mandatory := required + explicit;
    var pending := mandatory;
    while pending != {}
      invariant pending <= mandatory
      invariant blockers == [] <==> errors == [] && forall id <- mandatory - pending :: id in byId && byId[id].verified
      decreases pending
    {
      var id :| id in pending;
      pending := pending - {id};
      if id !in byId {
        blockers := blockers + [Blocker(GateStatus, id)];
      } else if !byId[id].verified {
        blockers := blockers + [Blocker(GateStatus, id)];
      }
    }
    if errors == [] {
      assert explicit == set gate <- gates | gate.applicable :: gate.id;
      forall id | id in mandatory
        ensures (exists gate <- gates :: gate.id == id && gate.verified) <==> id in byId && byId[id].verified
      {
      }
    }
  }

  // ----- risk -----

  /** `_scope_risk_floor` and the comparison with the declared risk. */
  method CheckRisk(inputs: Inputs, affected: seq<string>, byId: map<string, Contract>)
      returns (risk: Option<Risk>, blockers: seq<Blocker>)
    ensures blockers == [] <==>
      (inputs.snapshot.risk.Some? &&
       forall id <- affected :: id in byId ==>
         byId[id].minimumRisk.Some? && Rank(byId[id].minimumRisk.value) <= Rank(inputs.snapshot.risk.value))
    ensures blockers == [] ==> risk == inputs.snapshot.risk
  {
    var floor := R1;
    blockers := [];
    for i := 0 to |affected|
      invariant blockers == [] <==> forall id <- affected[..i] :: id in byId ==> byId[id].minimumRisk.Some?
      invariant forall risk :: Rank(floor) <= Rank(risk) <==>
        forall id <- affected[..i] :: id in byId && byId[id].minimumRisk.Some? ==>
          Rank(byId[id].minimumRisk.value) <= Rank(risk)
    {
      var id := affected[i];
      assert affected[..i + 1] == affected[..i] + [id];
      if id in byId {
        var minimum := byId[id].minimumRisk;
        if minimum.None? {
          blockers := blockers + [Blocker(RiskInput, id)];
        } else if Rank(minimum.value) > Rank(floor) {
          floor := minimum.value;
        }
      }
    }
    assert affected[..|affected|] == affected;
    var declared := inputs.snapshot.risk;
    if declared.None? {
      risk, blockers := None, blockers + [Blocker(RiskInput, "")];
    } else if Rank(declared.value) < Rank(floor) {
      risk, blockers := Some(floor), blockers + [Blocker(RiskInput, "")];
    } else {
      risk := declared;
    }
  }

  // ----- bound evidence -----

  /** The checks on one bound record, each of which may mark it bad. */
  method IsBad(f: Facts, entry: Evidence, binding: Binding) returns (bad: bool)
    ensures bad <==> !Sound(f, entry, binding)
  {
    bad := false;
    if !CurrentStatus(entry.status) { bad := true; }
    if entry.roles == {Implementation} && (entry.status.Accepted? || entry.status.ProductionConfirmed?) { bad := true; }
    if entry.commit != f.head || binding.commit != f.head { bad := true; }
    if entry.target != f.target || binding.target != f.target { bad := true; }
    if entry.invalidated { bad := true; }
    if entry.class_ == "" || !PolicyUsable(f.policy, entry.class_) {
      bad := true;
    } else {
      var policy := f.policy[entry.class_];
      if entry.observedAt.None? {
        bad := true;
      } else if entry.observedAt.value > f.now + 5.0 {
        bad := true;
      } else if policy.ttlHours.Some? && f.now - entry.observedAt.value > policy.ttlHours.value * 60.0 {
        bad := true;
      }
      ghost var before := bad;
      for i := 0 to |policy.triggers|
        invariant bad <==> before || exists trigger <- policy.triggers[..i] :: !TriggerFresh(entry, trigger, f.state)
      {
        assert policy.triggers[..i + 1] == policy.triggers[..i] + [policy.triggers[i]];
        if !TriggerFresh(entry, policy.triggers[i], f.state) { bad := true; }
      }
      assert policy.triggers[..|policy.triggers|] == policy.triggers;
    }
    if entry.fingerprint != f.fingerprint { bad := true; }
    if entry.roles == {} { bad := true; }
    if entry.provenance.None? { bad := true; }
  }

  /** The binding's record exists and is sound. */
  predicate BoundTo(f: Facts, byId: map<string, Evidence>, binding: Binding) {
    binding.id in byId && Sound(f, byId[binding.id], binding)
  }

  /** One binding of the evidence loop: refuse empty and repeated ids, then judge the bound record. */
  method BindOne(f: Facts, byId: map<string, Evidence>, seen: set<string>, binding: Binding) returns (accepted: bool)
    ensures accepted <==> binding.id != "" && binding.id !in seen && BoundTo(f, byId, binding)
  {
    if binding.id == "" || binding.id in seen || binding.id !in byId {
      return false;
    }
    var bad := IsBad(f, byId[binding.id], binding);
    accepted := !bad;
  }

  /** Every binding so far has an id of its own and a sound record. */
  ghost predicate BoundOnce(f: Facts, byId: map<string, Evidence>, bindings: seq<Binding>) {
    bindings == [] ||
    (var n := |bindings| - 1;
     BoundOnce(f, byId, bindings[..n]) && bindings[n].id != "" && bindings[n].id !in BindingIds(bindings[..n]) &&
     BoundTo(f, byId, bindings[n]))
  }

  /** The non-empty ids of the bindings. */
  function BindingIds(bindings: seq<Binding>): set<string> {
    set binding <- bindings | binding.id != "" :: binding.id
  }

  lemma BindingIdsGrow(bindings: seq<Binding>, i: nat)
    requires i < |bindings|
    ensures BindingIds(bindings[..i + 1]) ==
      BindingIds(bindings[..i]) + (if bindings[i].id == "" then {} else {bindings[i].id})
  {
    assert bindings[..i + 1] == bindings[..i] + [bindings[i]];
  }

  lemma NewBinding(bindings: seq<Binding>, n: nat)
    requires n < |bindings|
    ensures UniqueRegistry(bindings[..n + 1], BindingId) <==>
      UniqueRegistry(bindings[..n], BindingId) && bindings[n].id != "" && bindings[n].id !in BindingIds(bindings[..n])
  {
    UniqueExtend(bindings, BindingId, n);
    forall binding: Binding ensures BindingId(binding) == binding.id {}
  }

  lemma {:induction false} BoundOnceMeaning(f: Facts, byId: map<string, Evidence>, bindings: seq<Binding>)
    ensures BoundOnce(f, byId, bindings) <==>
      UniqueRegistry(bindings, BindingId) && forall binding <- bindings :: BoundTo(f, byId, binding)
  {
    if bindings != [] {
      var n := |bindings| - 1;
      BoundOnceMeaning(f, byId, bindings[..n]);
      NewBinding(bindings, n);
      assert bindings[..n + 1] == bindings;
      assert forall binding :: binding in bindings <==> binding in bindings[..n] || binding == bindings[n];
    }
  }

  /** The binding loop over an already indexed evidence list. */
  method BindAll(f: Facts, bindings: seq<Binding>, byId: map<string, Evidence>)
      returns (valid: map<string, Evidence>, blockers: seq<Blocker>)
    ensures blockers == [] <==> BoundOnce(f, byId, bindings)
    ensures forall id <- valid :: id in byId && valid[id] == byId[id]
    ensures blockers == [] ==> valid.Keys == BindingIds(bindings)
  {
    blockers, valid := [], map[];
    var seen: set<string> := {};
    for i := 0 to |bindings|
      invariant blockers == [] <==> BoundOnce(f, byId, bindings[..i])
      invariant seen == BindingIds(bindings[..i])
      invariant forall id <- valid :: id in byId && valid[id] == byId[id]
      invariant blockers == [] ==> valid.Keys == seen
    {
      var binding := bindings[i];
      var accepted := BindOne(f, byId, seen, binding);
      assert bindings[..i + 1][..i] == bindings[..i];
      BindingIdsGrow(bindings, i);
      if binding.id != "" {
        seen := seen + {binding.id};
      }
      if accepted {
        valid := valid[binding.id := byId[binding.id]];
      } else {
        blockers := blockers + [Blocker(EvidenceBinding, binding.id)];
      }
    }
    assert bindings[..|bindings|] == bindings;
  }

  /** The valid records, keyed by id. */
  method BindEvidence(inputs: Inputs) returns (valid: map<string, Evidence>, blockers: seq<Blocker>)
    ensures blockers == [] <==>
      (UniqueRegistry(EvidenceOf(inputs), EvidenceId) &&
       UniqueRegistry(inputs.snapshot.bindings, BindingId) && BindingsSound(FactsOf(inputs)))
    ensures forall id <- valid :: valid[id].id == id
    ensures blockers == [] ==> valid.Values == BaseCurrent(FactsOf(inputs))
  {
    var byId, errors := RegistryById(EvidenceOf(inputs), EvidenceId);
    var found, unbound := BindAll(FactsOf(inputs), inputs.snapshot.bindings, byId);
    valid, blockers := found, errors + unbound;
    forall id | id in byId ensures byId[id].id == id { assert EvidenceId(byId[id]) == byId[id].id; }
    BoundOnceMeaning(FactsOf(inputs), byId, inputs.snapshot.bindings);
    if errors == [] {
      BoundMeaning(inputs, byId);
      if unbound == [] {
        ValidMeaning(inputs, byId, valid);
      }
    }
  }

  lemma BoundMeaning(inputs: Inputs, byId: map<string, Evidence>)
    requires forall id <- byId :: byId[id] in EvidenceOf(inputs) && byId[id].id == id
    requires forall item <- EvidenceOf(inputs) :: EvidenceId(item) in byId && byId[EvidenceId(item)] == item
    ensures BindingsSound(FactsOf(inputs)) <==>
      forall binding <- inputs.snapshot.bindings :: BoundTo(FactsOf(inputs), byId, binding)
  {
  }

  lemma ValidMeaning(inputs: Inputs, byId: map<string, Evidence>, valid: map<string, Evidence>)
    requires forall id <- byId :: byId[id] in EvidenceOf(inputs) && byId[id].id == id
    requires forall item <- EvidenceOf(inputs) :: EvidenceId(item) in byId && byId[EvidenceId(item)] == item
    requires forall id <- valid :: id in byId && valid[id] == byId[id]
    requires valid.Keys == BindingIds(inputs.snapshot.bindings)
    requires UniqueRegistry(inputs.snapshot.bindings, BindingId)
    requires forall binding <- inputs.snapshot.bindings :: BoundTo(FactsOf(inputs), byId, binding)
    ensures valid.Values == BaseCurrent(FactsOf(inputs))
  {
  }

  // ----- what the valid records must cover -----

  /** The selected record of a role, if the snapshot names a valid record that carries it. */
  function ChosenFor(f: Facts, valid: map<string, Evidence>, role: Role): Option<Evidence> {
    if role in f.selected && f.selected[role] in valid && role in valid[f.selected[role]].roles
    then Some(valid[f.selected[role]]) else None
  }

  lemma ChosenMeaning(f: Facts, valid: map<string, Evidence>, role: Role)
    requires forall id <- valid :: valid[id].id == id
    ensures SelectedRecords(f, valid.Values, role) ==
      match ChosenFor(f, valid, role) { case None => {} case Some(evidence) => {evidence} }
  {
  }

  lemma HoldersMeaning(valid: map<string, Evidence>, role: Role)
    ensures (set id <- valid | role in valid[id].roles) == {} <==> WithRole(valid.Values, role) == {}
  {
    var ids := set id <- valid | role in valid[id].roles;
    forall id | id in ids ensures valid[id] in WithRole(valid.Values, role) {}
    forall evidence | evidence in WithRole(valid.Values, role) ensures ids != {} {
      var id :| id in valid && valid[id] == evidence;
      assert id in ids;
    }
  }

  /** Every required role is carried by a valid record, and every role with a snapshot field selects one. */
  method CollectRoles(f: Facts, valid: map<string, Evidence>, required: set<Role>)
      returns (participating: set<Evidence>, blockers: seq<Blocker>)
    ensures blockers == [] <==>
      ((forall role <- required :: WithRole(valid.Values, role) != {}) &&
       (forall role <- required | HasField(role) :: ChosenFor(f, valid, role).Some?))
    ensures participating ==
      set role <- required | HasField(role) && ChosenFor(f, valid, role).Some? :: ChosenFor(f, valid, role).value
  {
    blockers, participating := [], {};
    var pending := required;
    while pending != {}
      invariant pending <= required
      invariant blockers == [] <==>
        ((forall role <- required - pending :: WithRole(valid.Values, role) != {}) &&
         (forall role <- required - pending | HasField(role) :: ChosenFor(f, valid, role).Some?))
      invariant participating ==
        set role <- required - pending | HasField(role) && ChosenFor(f, valid, role).Some? ::
        ChosenFor(f, valid, role).value
      decreases pending
    {
      var role :| role in pending;
      var holders := set id <- valid | role in valid[id].roles;
      HoldersMeaning(valid, role);
      assert required - (pending - {role}) == (required - pending) + {role};
      pending := pending - {role};
      if holders == {} {
        blockers := blockers + [Blocker(EvidenceRole, "")];
      }
      if HasField(role) {
        if role !in f.selected || f.selected[role] !in holders {
          blockers := blockers + [Blocker(EvidenceRole, "")];
        } else {
          participating := participating + {valid[f.selected[role]]};
        }
      }
    }
    assert required - pending == required;
  }

  /** The selected records: independent from R2 on, and different negative and recovery records from R3 on. */
  method CheckSelection(f: Facts, valid: map<string, Evidence>, risk: Risk) returns (blockers: seq<Blocker>)
    requires forall id <- valid :: valid[id].id == id
    ensures (forall role <- RequiredRoles(risk) | HasField(role) :: ChosenFor(f, valid, role).Some?) ==>
      (blockers == [] <==> SelectionIndependent(f, valid.Values, risk))
  {
    blockers := [];
    var maker, checker := ChosenFor(f, valid, Implementation), ChosenFor(f, valid, Countercheck);
    if Rank(risk) >= 2 && maker.Some? && checker.Some? && !Independent(maker.value, checker.value) {
      blockers := blockers + [Blocker(EvidenceRole, "")];
    }
    var negative, recovery := ChosenFor(f, valid, Negative), ChosenFor(f, valid, Recovery);
    if Rank(risk) >= 3 && negative.Some? && recovery.Some? && negative.value.id == recovery.value.id {
      blockers := blockers + [Blocker(EvidenceRole, "")];
    }
    ChosenMeaning(f, valid, Implementation);
    ChosenMeaning(f, valid, Countercheck);
    if Rank(risk) >= 2 {
      assert Implementation in RequiredRoles(risk) && Countercheck in RequiredRoles(risk);
    }
    if Rank(risk) >= 3 {
      assert Negative in RequiredRoles(risk) && Recovery in RequiredRoles(risk);
    }
  }

  /** The global role checks together. */
  method CheckRoles(f: Facts, valid: map<string, Evidence>, risk: Risk)
      returns (participating: set<Evidence>, blockers: seq<Blocker>)
    requires forall id <- valid :: valid[id].id == id
    ensures blockers == [] <==> RolesCovered(f, valid.Values, risk) && SelectionIndependent(f, valid.Values, risk)
    ensures forall evidence :: evidence in participating <==>
      evidence in valid.Values && exists role <- RequiredRoles(risk) :: HasField(role) && SelectedFor(f, role, evidence)
  {
    var missing, dependent;
    participating, missing := CollectRoles(f, valid, RequiredRoles(risk));
    dependent := CheckSelection(f, valid, risk);
    blockers := missing + dependent;
    forall role: Role
      ensures SelectedRecords(f, valid.Values, role) ==
        match ChosenFor(f, valid, role) { case None => {} case Some(evidence) => {evidence} }
    {
      ChosenMeaning(f, valid, role);
    }
    forall evidence, role | evidence in valid.Values
      ensures SelectedFor(f, role, evidence) <==> ChosenFor(f, valid, role) == Some(evidence)
    {
      assert SelectedFor(f, role, evidence) <==> evidence in SelectedRecords(f, valid.Values, role);
    }
  }

  /** The records bound to the gate in one of the roles. */
  function InRoles(valid: set<Evidence>, gate: string, roles: set<Role>): set<Evidence> {
    set evidence <- valid | gate in evidence.gates && evidence.roles * roles != {}
  }

  lemma InRolesGrows(valid: set<Evidence>, gate: string, roles: set<Role>, role: Role)
    ensures InRoles(valid, gate, roles + {role}) == InRoles(valid, gate, roles) + GateRecords(valid, gate, role)
  {
    forall evidence | evidence in valid
      ensures evidence.roles * (roles + {role}) != {} <==> evidence.roles * roles != {} || role in evidence.roles
    {
      assert evidence.roles * (roles + {role}) ==
        evidence.roles * roles + (if role in evidence.roles then {role} else {});
    }
  }

  lemma NoneInRoles(valid: set<Evidence>, gate: string)
    ensures InRoles(valid, gate, {}) == {}
  {
  }

  /** The role loop of one gate. */
  method CheckGateRoles(valid: set<Evidence>, gate: string, roles: set<Role>)
      returns (participating: set<Evidence>, blockers: seq<Blocker>)
    ensures blockers == [] <==> forall role <- roles :: GateRecords(valid, gate, role) != {}
    ensures participating == InRoles(valid, gate, roles)
  {
    blockers, participating := [], {};
    var pending := roles;
    ghost var done: set<Role> := {};
    NoneInRoles(valid, gate);
    while pending != {}
      invariant done + pending == roles
      invariant blockers == [] <==> forall role <- done :: GateRecords(valid, gate, role) != {}
      invariant participating == InRoles(valid, gate, done)
      decreases pending
    {
      var role :| role in pending;
      var records := GateRecords(valid, gate, role);
      InRolesGrows(valid, gate, done, role);
      pending, done := pending - {role}, done + {role};
      participating := participating + records;
      if records == {} {
        blockers := blockers + [Blocker(GateEvidence, gate)];
      }
    }
    assert done == roles;
  }

  /** The records that take part for one gate; none when its roles are unusable. */
  function GateParticipants(valid: set<Evidence>, gate: Gate, risk: Risk): set<Evidence> {
    match GateRoles(gate, risk)
    case None => {}
    case Some(roles) => InRoles(valid, gate.id, roles)
  }

  /** Role coverage and independence for one mandatory gate. */
  method CheckGate(valid: set<Evidence>, gate: Gate, risk: Risk)
      returns (participating: set<Evidence>, blockers: seq<Blocker>)
    ensures blockers == [] <==> GateCovered(valid, gate, risk)
    ensures participating == GateParticipants(valid, gate, risk)
  {
    if GateRoles(gate, risk).None? {
      return {}, [Blocker(GateEvidence, gate.id)];
    }
    var roles := GateRoles(gate, risk).value;
    participating, blockers := CheckGateRoles(valid, gate.id, roles);
    var makers := if Implementation in roles then GateRecords(valid, gate.id, Implementation) else {};
    var checkers := if Countercheck in roles then GateRecords(valid, gate.id, Countercheck) else {};
    if makers != {} && checkers != {} && !AnyIndependent(makers, checkers) {
      blockers := blockers + [Blocker(GateEvidence, gate.id)];
    }
    if Negative in roles && Recovery in roles &&
      GateRecords(valid, gate.id, Negative) * GateRecords(valid, gate.id, Recovery) != {}
    {
      blockers := blockers + [Blocker(GateEvidence, gate.id)];
    }
  }

  function ParticipantsAt(valid: set<Evidence>, byId: map<string, Gate>, id: string, risk: Risk): set<Evidence> {
    if id in byId then GateParticipants(valid, byId[id], risk) else {}
  }

  /** The records that take part for some of the gates. */
  function Bound(valid: set<Evidence>, ids: set<string>, byId: map<string, Gate>, risk: Risk): set<Evidence> {
    set id <- ids, evidence <- ParticipantsAt(valid, byId, id, risk) :: evidence
  }

  lemma BoundGrows(valid: set<Evidence>, ids: set<string>, id: string, byId: map<string, Gate>, risk: Risk)
    ensures Bound(valid, ids + {id}, byId, risk) ==
            Bound(valid, ids, byId, risk) + ParticipantsAt(valid, byId, id, risk)
  {
  }

  method CheckGateEvidence(valid: set<Evidence>, mandatory: set<string>, byId: map<string, Gate>, risk: Risk)
      returns (participating: set<Evidence>, blockers: seq<Blocker>)
    ensures blockers == [] <==> forall id <- mandatory :: id in byId ==> GateCovered(valid, byId[id], risk)
    ensures participating == Bound(valid, mandatory, byId, risk)
  {
    blockers, participating := [], {};
    var pending := mandatory;
    ghost var done: set<string> := {};
    while pending != {}
      invariant done + pending == mandatory
      invariant blockers == [] <==> forall id <- done :: id in byId ==> GateCovered(valid, byId[id], risk)
      invariant participating == Bound(valid, done, byId, risk)
      decreases pending
    {
      var id :| id in pending;
      BoundGrows(valid, done, id, byId, risk);
      pending, done := pending - {id}, done + {id};
      if id !in byId {
        continue;
      }
      var records, errors := CheckGate(valid, byId[id], risk);
      participating, blockers := participating + records, blockers + errors;
    }
    assert done == mandatory;
  }

  method CheckRuleEvidence(valid: set<Evidence>, rules: set<string>, risk: Risk)
      returns (participating: set<Evidence>, blockers: seq<Blocker>)
    ensures blockers == [] <==> forall rule <- rules :: RuleCovered(valid, rule, risk)
    ensures participating == set evidence <- valid |
      exists rule <- rules :: rule in evidence.invariants && evidence.roles * RequiredRoles(risk) != {}
  {
    blockers, participating := [], {};
    var pending := rules;
    while pending != {}
      invariant pending <= rules
      invariant blockers == [] <==> forall rule <- rules - pending :: RuleCovered(valid, rule, risk)
      invariant participating == set evidence <- valid |
        exists rule <- rules - pending :: rule in evidence.invariants && evidence.roles * RequiredRoles(risk) != {}
      decreases pending
    {
      var rule :| rule in pending;
      assert rules - (pending - {rule}) == (rules - pending) + {rule};
      pending := pending - {rule};
      var records := set evidence <- valid | rule in evidence.invariants && evidence.roles * RequiredRoles(risk) != {};
      participating := participating + records;
      if records == {} {
        forall evidence | evidence in valid && rule in evidence.invariants
          ensures evidence.roles * RequiredRoles(risk) ==
        {}
        {
          assert evidence !in records;
        }
        blockers := blockers + [Blocker(InvariantEvidence, rule)];
      } else {
        var record :| record in records;
        assert RuleCovered(valid, rule, risk);
      }
    }
    assert rules - pending == rules;
  }

  method CheckQuorum(participating: set<Evidence>, risk: Risk) returns (blockers: seq<Blocker>)
    ensures blockers == [] <==> Quorum(participating, risk)
  {
    blockers := [];
    var classes := Classes(participating);
    var minimum := if Rank(risk) >= 3 then 2 else 1;
    if |classes| < minimum {
      blockers := blockers + [Blocker(QuorumEvidence, "")];
    } else if Rank(risk) >= 3 {
      if !IndependentClassPair(participating) {
        blockers := blockers + [Blocker(QuorumEvidence, "")];
      }
    }
  }

  /** Everything the valid records must cover at the effective risk. */
  method CheckCoverage(f: Facts, valid: map<string, Evidence>, mandatory: set<string>, byId: map<string, Gate>,
                       rules: set<string>, risk: Risk)
      returns (blockers: seq<Blocker>)
    requires forall id <- valid :: valid[id].id == id
    ensures blockers == [] <==>
      EvidenceAccepted(f, valid.Values, (set id <- mandatory | id in byId :: byId[id]), rules, risk)
  {
    var gates := set id <- mandatory | id in byId :: byId[id];
    var selected, roleErrors := CheckRoles(f, valid, risk);
    var bound, gateErrors := CheckGateEvidence(valid.Values, mandatory, byId, risk);
    var guarding, ruleErrors := CheckRuleEvidence(valid.Values, rules, risk);
    var quorumErrors := CheckQuorum(selected + bound + guarding, risk);
    blockers := roleErrors + gateErrors + ruleErrors + quorumErrors;
    CoveredMeaning(valid.Values, mandatory, byId, risk);
    ParticipantsMeaning(f, valid.Values, mandatory, byId, rules, risk, selected, bound, guarding);
  }

  lemma CoveredMeaning(valid: set<Evidence>, mandatory: set<string>, byId: map<string, Gate>, risk: Risk)
    ensures (forall gate <- (set id <- mandatory | id in byId :: byId[id]) :: GateCovered(valid, gate, risk)) <==>
      forall id <- mandatory :: id in byId ==> GateCovered(valid, byId[id], risk)
  {
  }

  lemma BoundIsPerGate(valid: set<Evidence>, mandatory: set<string>, byId: map<string, Gate>, risk: Risk,
                       evidence: Evidence)
    requires evidence in valid
    ensures evidence in Bound(valid, mandatory, byId, risk) <==>
      exists gate <- (set id <- mandatory | id in byId :: byId[id]) :: BoundInRole(evidence, gate, risk)
  {
    var gates := set id <- mandatory | id in byId :: byId[id];
    if evidence in Bound(valid, mandatory, byId, risk) {
      var id :| id in mandatory && evidence in ParticipantsAt(valid, byId, id, risk);
      assert byId[id] in gates;
    }
    if gate :| gate in gates && BoundInRole(evidence, gate, risk) {
      var id :| id in mandatory && id in byId && byId[id] == gate;
      assert evidence in ParticipantsAt(valid, byId, id, risk);
    }
  }

  lemma ParticipantsMeaning(f: Facts, valid: set<Evidence>, mandatory: set<string>, byId: map<string, Gate>,
                            rules: set<string>, risk: Risk,
                            selected: set<Evidence>, bound: set<Evidence>, guarding: set<Evidence>)
    requires forall evidence :: evidence in selected <==>
      evidence in valid && exists role <- RequiredRoles(risk) :: HasField(role) && SelectedFor(f, role, evidence)
    requires bound == Bound(valid, mandatory, byId, risk)
    requires guarding == set evidence <- valid |
      exists rule <- rules :: rule in evidence.invariants && evidence.roles * RequiredRoles(risk) != {}
    ensures selected + bound + guarding ==
      Participants(f, valid, (set id <- mandatory | id in byId :: byId[id]), rules, risk)
  {
    forall evidence | evidence in valid
      ensures evidence in selected + bound + guarding <==>
        BaseParticipates(f, evidence, (set id <- mandatory | id in byId :: byId[id]), rules, risk)
    {
      BoundIsPerGate(valid, mandatory, byId, risk, evidence);
    }
  }

  /** `_validate_bound_evidence`. Without an effective risk only the bindings themselves are judged. */
  method ValidateBoundEvidence(inputs: Inputs, risk: Option<Risk>, mandatory: set<string>, byId: map<string, Gate>,
                               rules: set<string>)
      returns (blockers: seq<Blocker>)
    ensures blockers == [] ==> CommitBound(inputs)
    ensures risk.Some? ==>
      (blockers == [] <==>
       (CommitBound(inputs) && UniqueRegistry(EvidenceOf(inputs), EvidenceId) &&
        UniqueRegistry(inputs.snapshot.bindings, BindingId) && BindingsSound(FactsOf(inputs)) &&
        EvidenceAccepted(FactsOf(inputs), BaseCurrent(FactsOf(inputs)),
          (set id <- mandatory | id in byId :: byId[id]), rules, risk.value)))
  {
    if |inputs.head| != 40 || inputs.target == "" {
      return [Blocker(EvidenceBinding, "")];
    }
    blockers := [];
    if inputs.snapshot.evaluatedCommit != inputs.head || inputs.snapshot.evaluatedTarget != inputs.target ||
      |inputs.fingerprint| != 64
    {
      blockers := [Blocker(EvidenceBinding, "")];
    }
    var valid, unbound := BindEvidence(inputs);
    blockers := blockers + unbound;
    if risk.Some? {
      var uncovered := CheckCoverage(FactsOf(inputs), valid, mandatory, byId, rules, risk.value);
      blockers := blockers + uncovered;
    }
  }

  method CheckSwitches(inputs: Inputs) returns (blockers: seq<Blocker>)
    ensures blockers == [] <==> SwitchesAccepted(inputs)
  {
    blockers := [];
    if !inputs.snapshot.switchesClear {
      blockers := blockers + [Blocker(SnapshotInput, "")];
    }
    if inputs.protection.None? || inputs.snapshot.declaredProtected != inputs.protection.value {
      blockers := blockers + [Blocker(SnapshotInput, "")];
    }
  }

  method CheckAuthentication(inputs: Inputs) returns (blockers: seq<Blocker>)
    ensures blockers == [] <==> Authenticated(inputs)
  {
    blockers := [];
    var attested, trusted := map[], map[];
    if inputs.attestation.None? || !inputs.attestation.value.authentic ||
      !StateValid(inputs.attestation.value.triggerState)
    {
      blockers := blockers + [Blocker(Authentication, "")];
    } else {
      attested := inputs.attestation.value.triggerState;
    }
    if inputs.trigger.None? || !inputs.trigger.value.authentic || !StateValid(inputs.trigger.value.state) {
      blockers := blockers + [Blocker(Authentication, "")];
    } else {
      trusted := inputs.trigger.value.state;
    }
    if attested != map[] && trusted != map[] && attested != trusted {
      blockers := blockers + [Blocker(Authentication, "")];
    }
  }

  /** Registries, affected scope, impact map, gates and risk. */
  method CheckRegisteredScope(inputs: Inputs)
      returns (mandatory: set<string>, gateById: map<string, Gate>, risk: Option<Risk>, blockers: seq<Blocker>)
    ensures blockers == [] <==> ScopeRegistered(inputs)
    ensures blockers == [] ==> risk == inputs.snapshot.risk
    ensures blockers == [] ==> (set id <- mandatory | id in gateById :: gateById[id]) == MandatoryGates(FactsOf(inputs))
  {
    var affected, contractById, scopeErrors := CheckScope(inputs);
    var required, impactErrors := RequiredGateIds(affected, inputs.mappings);
    var gateErrors, riskErrors;
    gateById, mandatory, gateErrors := CheckGates(inputs.gates, required);
    risk, riskErrors := CheckRisk(inputs, affected, contractById);
    blockers := scopeErrors + impactErrors + gateErrors + riskErrors;
    if scopeErrors == [] {
      ImpactMeaning(inputs, affected);
      RiskMeaning(inputs, affected, contractById);
      if impactErrors == [] && UniqueRegistry(inputs.gates, GateId) {
        MandatoryMeaning(inputs, affected, required, gateById, mandatory);
      }
    }
  }

  ghost predicate ScopeRegistered(inputs: Inputs) {
    var f := FactsOf(inputs);
    UniqueRegistry(inputs.contracts, ContractId) && UniqueRegistry(inputs.snapshot.affected, SelfId) &&
    UniqueRegistry(inputs.mappings, MappingId) && UniqueRegistry(inputs.gates, GateId) &&
    ContractsInScope(f) && ImpactMapped(f) && GatesVerified(f) && RiskAboveContracts(f)
  }

  /** The base evaluation: the blocker list is empty exactly when the request and every base check are accepted. */
  method BaseBlockers(inputs: Inputs) returns (blockers: seq<Blocker>)
    ensures blockers == [] <==> Unambiguous(inputs) && RequestAccepted(inputs) && BaseAccepts(FactsOf(inputs))
  {
    var rules, ruleErrors := CheckInvariants(inputs);
    var mandatory, gateById, risk, scopeErrors := CheckRegisteredScope(inputs);
    var switchErrors := CheckSwitches(inputs);
    var authenticationErrors := CheckAuthentication(inputs);
    var evidenceErrors := ValidateBoundEvidence(inputs, risk, mandatory, gateById, rules);
    blockers := ruleErrors + scopeErrors + switchErrors + authenticationErrors + evidenceErrors;
  }

  lemma ImpactMeaning(inputs: Inputs, affected: seq<string>)
    requires affected == inputs.snapshot.affected
    ensures ImpactMapped(FactsOf(inputs)) <==>
      forall id <- affected :: exists mapping <- inputs.mappings :: mapping.contract == id && MappingUsable(mapping)
  {
    var f := FactsOf(inputs);
    assert forall id :: id in f.affected <==> id in affected;
    assert forall mapping :: mapping in f.mappings <==> mapping in inputs.mappings;
  }

  lemma RiskMeaning(inputs: Inputs, affected: seq<string>, byId: map<string, Contract>)
    requires affected == inputs.snapshot.affected && inputs.snapshot.affected != []
    requires forall contract <- inputs.contracts :: contract.id in byId && byId[contract.id] == contract
    requires forall id <- byId :: byId[id] in inputs.contracts && byId[id].id == id
    ensures RiskAboveContracts(FactsOf(inputs)) <==>
      (inputs.snapshot.risk.Some? &&
       forall id <- affected :: id in byId ==>
         byId[id].minimumRisk.Some? && Rank(byId[id].minimumRisk.value) <= Rank(inputs.snapshot.risk.value))
  {
  }

  lemma MandatoryMeaning(inputs: Inputs, affected: seq<string>, required: set<string>, byId: map<string, Gate>,
                         mandatory: set<string>)
    requires affected == inputs.snapshot.affected
    requires required == set mapping <- inputs.mappings, gate <- mapping.gates | mapping.contract in affected :: gate
    requires mandatory == required + (set gate <- inputs.gates | gate.applicable :: gate.id)
    requires forall id <- byId :: byId[id] in inputs.gates && byId[id].id == id
    requires forall gate <- inputs.gates :: gate.id in byId && byId[gate.id] == gate
    ensures mandatory == BaseMandatory(FactsOf(inputs))
    ensures (set id <- mandatory | id in byId :: byId[id]) == MandatoryGates(FactsOf(inputs))
    ensures GatesVerified(FactsOf(inputs)) <==>
      forall id <- mandatory :: exists gate <- inputs.gates :: gate.id == id && gate.verified
  {
  }
}
