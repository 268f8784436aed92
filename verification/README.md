# FanMind control plane: a verified model

FanMind's repository steers its own development with a few Python scripts and one TypeScript helper. This project
models the four parts of that control plane whose mistakes would be expensive, and proves what they promise.

* **The builder manager** (`scripts/fanmind_next_best_action.py`) reconciles started-work records with work locks,
  turns the result into worker reservations, and admits new actions beside them under a worker limit, dependencies
  and declared scopes. A serial dispatcher sits on top, and hand-written scanners read open roadmap items out of
  TypeScript text. Modules: `RepositoryPaths`, `Catalog`, `Scopes`, `WorkStatuses`, `WorkSlots`,
  `WorkSlotProperties`, `WorkSlotMeaning`, `Manager`, `ManagerProperties`, `ManagerMeaning`, `CompletionRuns`, and for
  the scanners `TsLexer`, `TsLexerProperties`, `JsonStrings`, `JsonSpellings`, `Roadmap`, `RoadmapSyntax`,
  `RoadmapScanning`, `RoadmapRoundTrip`, `RoadmapPrinter`.
* **The release decision** (`scripts/_fanmind_release_decision_base.py` and the legacy, round 8 and round 11 layers)
  blocks a release unless four layers, each with its own computation of current evidence, mandatory gates, risk and
  quorum, are content. Modules: `ReleaseRecords` (inputs), `ReleaseLayers` (what each layer accepts),
  `BaseEvaluator`, `HardeningEvaluator`, `ReleaseDecision` (the loops), `ReleaseProperties`, `ReleasePolicy` (one
  policy on the fields of the request), `ReleaseEquivalence` (the layers accept exactly what it allows),
  `ReleaseLayerMeaning` (each layer by itself), `ReleaseExample`.
* **The orchestrator admission** (`scripts/fanmind_orchestrator_admission.py`) lets every workflow run decide for
  itself, from the shared run history and the receipt on main, whether it may transport its handoff. Modules:
  `AdmissionHistory`, `Admission`, `AdmissionMeaning` (the decision on the fields), `AdmissionProtocol` (all runs
  together), `AdmissionProgress`, `Pagination`.
* **The budget field** (`src/lib/aiCapacityAdmin.ts`) prints and parses EUR amounts with eight decimals. Modules:
  `CapacityBudget`, `Decimals`.

Loops of the source are methods with loop invariants, proved equal to a specification function; the theorems are
lemmas about those functions. The modules whose names end in `Meaning`, `ReleasePolicy` and `JsonSpellings` state in
words of their own, on the fields alone, what the decisions mean, and prove that the specification functions decide
exactly that. The Python dictionaries and lists are local to one call and never shared, so they are
sequences, sets and maps that the methods reassign.

## Assumptions

* Admission protocol: a history read is atomic, lists every run, and shows a step's conclusion only for what really
  happened in that attempt; a first attempt starts when its run is created; a run transports only after its own
  admit step. Nothing else is serialized: the workflow's concurrency group is not used.
* Manager theorems that speak about one action per id assume that catalog ids are unique, as the catalog requires.
* Release decision: signatures, digests, document lifetimes, schema screens and the early screens between layers
  arrive as booleans. The screens can only block.

## Where code and intention differ

* A started-work record whose only status is ACTIVE gets no slot, because ACTIVE is missing from the active states
  (`WorkSlotProperties.ActiveOnlyRecordIsDropped`).
* Path normalisation is not idempotent on every accepted input: `./C:/x` is accepted and its result `C:/x` is
  refused. `RepositoryPaths.CanonicalAgain` states exactly when the second normalisation refuses.
* A complete list of exactly 1000 entries is refused by the pagination loop although its total is within the bound
  (`Pagination.FixedListIsReadExactlyBelowThousand`).

## Model

| member | source | states |
|---|---|---|
| RepositoryPaths.JoinOfSplit | scripts/fanmind_next_best_action.py:729-737 | splitting a path at slashes and joining it again gives the same text |
| RepositoryPaths.CanonicalNamesTheSameLocation | scripts/fanmind_next_best_action.py:729-737 | exactly the unrefused paths that never climb above their start are accepted; from every directory the result names the same location, with no empty, "." or ".." segment except "." for the root |
| RepositoryPaths.CanonicalAgain | scripts/fanmind_next_best_action.py:729-737 | normalising a result again gives the same text, except exactly when it now looks like a drive letter |
| RepositoryPaths.DriveLetterExample | scripts/fanmind_next_best_action.py:732-737 | the exception occurs: `./C:/x` is accepted, its result is refused |
| RepositoryPaths.StringPrefixIsSegmentPrefix | scripts/fanmind_next_best_action.py:740-747 | comparing path strings by prefix decides the same as comparing their segments |
| RepositoryPaths.OverlapMeansSharedLocation | scripts/fanmind_next_best_action.py:740-747 | two paths do not overlap exactly when both are valid and no location lies in or under both |
| Catalog.SortCorrect | scripts/fanmind_next_best_action.py:628-628 | ordering by priority and id gives a sorted permutation of the catalog |
| Catalog.CandidatesSorted | scripts/fanmind_next_best_action.py:650-675 | candidates are executable catalog actions in priority order, so sorting them once more changes nothing |
| Catalog.DependencyScanMeaning | scripts/fanmind_next_best_action.py:796-812 | the dependency check is satisfied exactly when every dependency is a known and completed action; otherwise it names the first one that is not, as unknown, failed or not verified |
| Scopes.ScopeConflicts | scripts/fanmind_next_best_action.py:750-793 | the two passes over the scope keys return exactly the specified reason list, in order and without repeated cross reasons |
| Scopes.NoReasonsMeansDisjoint | scripts/fanmind_next_best_action.py:714-793 | the reason list is empty exactly when tasks differ, both scopes are complete and valid, no non-path value is shared, and no repository location is owned by both through any two path categories |
| Scopes.ReasonsExactly | scripts/fanmind_next_best_action.py:750-793 | the reasons given are exactly those that hold of the declared scopes: same task, unknown scope, invalid path, shared value, file and directory overlap, overlap across two path categories |
| Scopes.ReasonsOnce | scripts/fanmind_next_best_action.py:750-793 | no reason is given twice |
| Scopes.ConflictFreedomIsSymmetric | scripts/fanmind_next_best_action.py:750-793 | swapping the two actions never changes whether they conflict |
| WorkSlots.BuildLockTable | scripts/fanmind_next_best_action.py:381-396 | the lock table holds for every heading its last block; its headings are distinct and in the order of their first block |
| WorkSlots.LockTableMeaning | scripts/fanmind_next_best_action.py:381-396 | the same for every list of lock blocks: lookup finds the last block of an id, and a later block replaces the earlier one in its place |
| WorkSlots.ReadRecord | scripts/fanmind_next_best_action.py:417-462 | one considered record yields exactly its specified slot: lock evidence can contradict it, stop it, or end it |
| WorkSlots.ReadRecords | scripts/fanmind_next_best_action.py:401-462 | the record loop yields exactly the slots of the considered records and the lock ids they represent |
| WorkSlots.StopMatching | scripts/fanmind_next_best_action.py:474-485 | a clean stopped lock changes exactly the slots with its tasks: contradiction becomes a conflict, otherwise status and missing action are taken over |
| WorkSlots.ApplyLocks | scripts/fanmind_next_best_action.py:467-486 | the loop over orphan stopped locks applies each of them once, in table order |
| WorkSlots.AddOrphans | scripts/fanmind_next_best_action.py:491-517 | locks without any record become slots of their own unless they are cleanly terminal or stopped without an exact action |
| WorkSlots.ActiveWorkSlots | scripts/fanmind_next_best_action.py:373-540 | the four passes compute exactly the specified current slots |
| WorkSlotProperties.SlotIdentitiesAreDistinct | scripts/fanmind_next_best_action.py:519-540 | no two slots have the same tasks and action, so repeated evidence takes no second worker |
| WorkSlotProperties.RunningRecordKeepsSlot | scripts/fanmind_next_best_action.py:398-540 | every explicitly running or contradictory record with a task keeps a live slot with its tasks and exact action, unless a clean terminal lock ended it; contradiction is never lost |
| WorkSlotProperties.RecordSlotExactly | scripts/fanmind_next_best_action.py:404-462 | exactly which records get a slot of their own |
| WorkSlotProperties.ActiveOnlyRecordIsDropped | scripts/fanmind_next_best_action.py:412-413 | a record whose only status is ACTIVE gets no slot |
| WorkSlotProperties.SlotsAreEvidenced | scripts/fanmind_next_best_action.py:373-540 | no slot is invented: each rests on a current record or on a lock that is not cleanly terminal |
| WorkSlotMeaning.TableExactly | scripts/fanmind_next_best_action.py:381-396 | the lock table holds exactly the last block of every heading |
| WorkSlotMeaning.RecordSlotMeans | scripts/fanmind_next_best_action.py:401-462 | the slot of a record, in status words: which records count, which lock contradicts, ends or holds one, and the only action record and lock name together |
| WorkSlotMeaning.StoppedEndsAs | scripts/fanmind_next_best_action.py:467-486 | after the held locks of its tasks a slot is contradicted exactly if it ran, was contradicted, or two different actions are named; otherwise it is held by the last of them, with the one action named |
| WorkSlotMeaning.StoppingPass | scripts/fanmind_next_best_action.py:467-486 | the pass over the lock table stops every slot by exactly the cleanly held, uncited locks of its tasks, and represents exactly the locks that stopped something |
| WorkSlotMeaning.EverythingCurrentIsShown | scripts/fanmind_next_best_action.py:373-540 | every current record, stopped by the held locks of its tasks, and every lock without a record that is neither cleanly final nor held without an exact action shows in the current slots, at least as cautiously, and no work shows twice |
| WorkSlotMeaning.EverySlotIsExplained | scripts/fanmind_next_best_action.py:373-540 | every current slot goes back to such a record or lock, and is contradicted only where they contradict each other or themselves |
| WorkSlotMeaning.OrphanLockKeepsSlot | scripts/fanmind_next_best_action.py:488-517 | a lock that no current record cites keeps a slot with its tasks and exact action, live if it runs and contradicted if its words are, unless it is cleanly final or held |
| WorkSlotMeaning.RunningLockKeepsWorker | scripts/fanmind_next_best_action.py:844-1002 | a running or contradictory lock without a record occupies a worker at every limit, unless its evidence is clean and its actions are all done or failed |
| WorkSlotMeaning.HeldLockStops | scripts/fanmind_next_best_action.py:467-509 | a cleanly held lock without a record holds or contradicts the slots with its tasks, and keeps a slot for its one action if no record has them |
| WorkSlotProperties.LiveSlotOutcome | scripts/fanmind_next_best_action.py:847-969 | a live slot releases its worker exactly when it is clean and everything it consistently identifies is finished |
| WorkSlotProperties.OneWorkerPerReservingSlot | scripts/fanmind_next_best_action.py:847-969 | reserving slots and reserved workers pair up one to one, in order |
| WorkSlotProperties.RunningRecordKeepsWorker | scripts/fanmind_next_best_action.py:844-1002 | from text records to report: a running or contradictory record occupies a worker at every limit, unless its evidence is clean and its actions are all done or failed |
| WorkSlotProperties.ConflictStopsAllAdmission | scripts/fanmind_next_best_action.py:869-1037 | one contradictory slot makes new admissions empty at every limit |
| Manager.JudgeSlot | scripts/fanmind_next_best_action.py:847-969 | one turn of the slot loop, with the branches of its body in their order, gives exactly the specified outcome of the slot |
| Manager.ReserveWorkers | scripts/fanmind_next_best_action.py:847-969 | the slot loop returns exactly the specified reservations and stopped ids |
| Manager.ResolvedSlots | scripts/fanmind_next_best_action.py:837-839 | without slots every active task becomes one slot of its own, without action or status |
| Manager.CollectConflicts | scripts/fanmind_next_best_action.py:1027-1033 | the conflict loop collects exactly the reasons of every running worker against the candidate |
| Manager.KeepActive | scripts/fanmind_next_best_action.py:991-1002 | active work always keeps its worker and is reported ready only if it may proceed |
| Manager.AdmitNew | scripts/fanmind_next_best_action.py:1008-1040 | the admission loop over new candidates computes exactly the specified lists |
| Manager.BuildSafeReadySet | scripts/fanmind_next_best_action.py:815-1050 | the whole manager returns the specified report at the requested limit, 3 if none is requested, and refuses every limit outside 1 to 5 |
| ManagerMeaning.ClassifyExactly | scripts/fanmind_next_best_action.py:598-618 | the status of an action on its fields: finished, then missing gates with their states, then the owner; executable exactly when nothing of that applies |
| ManagerMeaning.CandidatesExactly | scripts/fanmind_next_best_action.py:650-675 | candidates are exactly the executable actions that are parallel-safe or at or above every action that needs the owner; none needs or awaits the owner or misses a gate |
| ManagerMeaning.OutcomeExactly | scripts/fanmind_next_best_action.py:847-969 | one slot, on the fields of slot and catalog: it occupies exactly the action it stands for, keeps a placeholder where that is contradicted, inconsistent or ambiguous, halts actions where it is held, and otherwise does nothing |
| ManagerMeaning.NewCandidatesExactly | scripts/fanmind_next_best_action.py:972-979 | a new candidate is an open action on which no slot works and which no slot halts |
| ManagerMeaning.HaltedIsNotAdmitted | scripts/fanmind_next_best_action.py:874-899 | an action that a blocked or paused slot halts, by name or through its tasks, is not admitted at any limit and is ready only if another slot works on it |
| ManagerMeaning.PausedActionStaysPaused | scripts/fanmind_next_best_action.py:886-888 | a clean blocked or paused slot naming an action, with that action's task as its only task, keeps it from being started at every limit |
| ManagerMeaning.GuardStopsAdmission | scripts/fanmind_next_best_action.py:869-899 | a slot whose identity is contradicted, inconsistent or only partly known keeps its placeholder worker, and nothing new starts beside it |
| ManagerMeaning.IdleSlotChangesNothing | scripts/fanmind_next_best_action.py:847-969 | a slot that occupies, guards and halts nothing, such as a held one without any match, can be left out anywhere without changing the report |
| ManagerMeaning.ReportExactly | scripts/fanmind_next_best_action.py:991-1050 | the running workers are the reserved ones and, first come first served, the new candidates whose dependencies are reached and that find room; ready are the reserved actions that may proceed and all admitted ones |
| ManagerMeaning.SerializedReasonsAreTrue | scripts/fanmind_next_best_action.py:983-1037 | every action put off is put off for a reason that holds of the final workers, and every failed action is listed as failed |
| ManagerMeaning.BlockedReasonsAreTrue | scripts/fanmind_next_best_action.py:991-1012 | every blocked action is blocked by the first of its dependencies that is not reached, with the right reason |
| ManagerMeaning.OccupiedButBlockedIsListed | scripts/fanmind_next_best_action.py:991-1002 | open work that a slot occupies and whose dependencies are not reached is listed as blocked by its first such dependency |
| ManagerMeaning.DispatchExactly | scripts/fanmind_next_best_action.py:1080-1149 | the dispatcher starts the first startable action when no slot holds a worker; otherwise it waits for the first action that needs the owner, and else says whether work is running |
| ManagerMeaning.SelectExactly | scripts/fanmind_next_best_action.py:678-699 | the serial selection is the first open action whose dependencies are reached, else the first that needs the owner |
| ManagerProperties.AdmissionsTakeOneWorkerEach | scripts/fanmind_next_best_action.py:1008-1040 | newly selected actions and new workers correspond one to one, in order |
| ManagerProperties.RunningWorkersAreDisjoint | scripts/fanmind_next_best_action.py:1008-1040 | of any two running workers of which one is new, both are parallel-safe and their tasks, scopes and repository locations are disjoint |
| ManagerProperties.ReadySetIsPrefix | scripts/fanmind_next_best_action.py:1008-1050 | raising the limit only appends to the ready set and to the running workers |
| ManagerProperties.WorkersStayWithinLimit | scripts/fanmind_next_best_action.py:991-1050 | used workers never exceed the larger of limit and reservations |
| ManagerProperties.NewCandidatesArePartitioned | scripts/fanmind_next_best_action.py:972-1050 | every new candidate is exactly one of ready, serialized or dependency-blocked |
| ManagerProperties.ReadySetIsMaximal | scripts/fanmind_next_best_action.py:1014-1050 | with capacity left, no serialized candidate could join the running workers without a conflict |
| ManagerProperties.ReadyMeansDependenciesMet | scripts/fanmind_next_best_action.py:991-1012 | every ready id is an executable catalog action whose dependencies are all completed catalog actions |
| ManagerProperties.SerialAndManagerSelectionAgree | scripts/fanmind_next_best_action.py:678-699 | without active work the serial and the manager selection return the same action at every limit |
| ManagerProperties.DispatchIsHeadOfEveryReadySet | scripts/fanmind_next_best_action.py:1080-1149 | the dispatcher is READY exactly when nothing is reserved and something is ready, and then names the head of the ready set at every limit |
| CompletionRuns.CompletionOrderIsTopological | scripts/fanmind_next_best_action.py:586-618 | over any run that completes only ready actions, each action is completed at most once and after all its dependencies |
| CompletionRuns.CycleIsNeverReady | scripts/fanmind_next_best_action.py:796-812 | an action on a dependency cycle is never completed and never ready, in any state any run reaches |
| TsLexer.BalancedLiteral | scripts/fanmind_next_best_action.py:73-114 | the scanner returns the text up to the bracket that closes the first one, or says why there is none |
| TsLexer.TopLevelObjects | scripts/fanmind_next_best_action.py:117-154 | the object loop terminates and cuts out exactly the specified regions, or fails where a nested scan fails |
| TsLexer.PropertyValueStart | scripts/fanmind_next_best_action.py:157-211 | the property loop finds the specified value position |
| TsLexerProperties.ScanFindsRegion | scripts/fanmind_next_best_action.py:73-114 | a nested scan started at a brace ends exactly where one lexer over the whole text sees that brace closed |
| TsLexerProperties.BalancedIsRegion | scripts/fanmind_next_best_action.py:73-114 | from a position in code the balanced-literal scanner returns the region of the brace there, or says that there is no brace or that it is never closed |
| TsLexerProperties.RegionsNest | scripts/fanmind_next_best_action.py:73-154 | a brace opened inside a balanced region is closed inside it |
| TsLexerProperties.ScannerFindsOutermostRegions | scripts/fanmind_next_best_action.py:117-154 | the object scanner succeeds exactly when every brace in code is closed, and then returns exactly the outermost balanced regions of the whole-text lexer, in order and disjoint |
| TsLexerProperties.LexerFollowsTokens | scripts/fanmind_next_best_action.py:73-154 | from any position in code, strings in one of the three quotes, line comments and block comments are skipped to their first end, nothing inside them is code, and every other character is one token |
| JsonStrings.DecodeEscape | scripts/fanmind_next_best_action.py:230-231 | decoding an escaped string (section 7 of RFC 8259) gives back every string unchanged |
| JsonSpellings.DecodeExactly | scripts/fanmind_next_best_action.py:230-231 | a literal body decodes to a text exactly if it is one of its legal spellings by section 7 of RFC 8259 (bare, short escape, four hexadecimal digits, surrogate pair), and to nothing otherwise |
| JsonStrings.ContainedCloses | scripts/fanmind_next_best_action.py:222-232 | a literal whose body holds no unescaped quote and no open escape ends at the quote behind it |
| JsonStrings.EscapeClosesAtItsQuote | scripts/fanmind_next_best_action.py:222-232 | the literal of an escaped string ends at its own closing quote, whatever it contains |
| Roadmap.StringProperty | scripts/fanmind_next_best_action.py:214-233 | the string-property loop returns the specified text, or the specified error |
| Roadmap.ProductRoadmapOpenItems | scripts/fanmind_next_best_action.py:236-274 | the nested loops return the specified open items, or the first error in reading order |
| RoadmapScanning.ArrayIsBalanced | scripts/fanmind_next_best_action.py:73-114 | scanning a printed array returns exactly its text, whatever strings, comments and nested objects it holds |
| RoadmapScanning.ObjectsOfPrinted | scripts/fanmind_next_best_action.py:117-154 | the inside of a printed array is split into exactly its printed objects |
| RoadmapScanning.PropertyOfPrinted | scripts/fanmind_next_best_action.py:157-211 | in a printed object the scanner finds the value of the first field of that name on the object's own level, or nothing |
| RoadmapRoundTrip.PropertyReadsBack | scripts/fanmind_next_best_action.py:214-233 | a string property is read as exactly the text its literal spells, for every spelling and every layout; missing, non-string and undecodable properties give their errors |
| RoadmapRoundTrip.DeclarationExactly | scripts/fanmind_next_best_action.py:238-243 | a roadmap is declared exactly where a line begins with the name, white space, perhaps a type annotation without an equals sign, an equals sign, white space and a bracket |
| RoadmapRoundTrip.RoadmapReadsBack | scripts/fanmind_next_best_action.py:236-274 | for every roadmap printed with arbitrary white space and comments between its tokens, further properties of any kind (strings, arrays, nested objects, words), with or without a type annotation, and any text before and after, reading gives exactly the meaning of its objects: the same items in the same order, or the same error |
| RoadmapRoundTrip.RoundTrip | scripts/fanmind_next_best_action.py:236-274 | whatever text writes a list of phases and items, reading it returns an item exactly when its phase is "upcoming" and its state is "progress", "partial" or "planned", in order, with phase number, label and status unchanged |
| RoadmapPrinter.PrintedRoundTrip | scripts/fanmind_next_best_action.py:236-274 | every list of phases and items with arbitrary strings can be written, escaped as in section 7 of RFC 8259, and is read back exactly |
| BaseEvaluator.RegistryById | scripts/_fanmind_release_decision_base.py:321-338 | a registry is accepted exactly when every id is non-empty and unique, and then the index holds exactly its members |
| BaseEvaluator.RequiredGateIds | scripts/_fanmind_release_decision_base.py:295-318 | the impact map yields exactly the gates of the affected contracts, or blocks when a contract has no usable row |
| BaseEvaluator.CheckRisk | scripts/_fanmind_release_decision_base.py:341-354 | accepts exactly when the declared risk reaches the floor of every affected contract |
| BaseEvaluator.BindEvidence | scripts/_fanmind_release_decision_base.py:486-563 | the binding loop accepts exactly when every bound record is sound, and then its valid records are exactly the current ones |
| BaseEvaluator.ValidateBoundEvidence | scripts/_fanmind_release_decision_base.py:451-658 | accepts exactly when bindings, roles, gates, invariants and quorum are all satisfied |
| BaseEvaluator.BaseBlockers | scripts/_fanmind_release_decision_base.py:661-835 | the base evaluator finds no blocker exactly when its registries are unambiguous, the request is accepted and the base layer's conditions hold |
| HardeningEvaluator.CurrentEntries | scripts/fanmind_release_decision_core_legacy.py:99-146 | the hardening layer's current records, as its own code computes them |
| HardeningEvaluator.EffectiveRisk | scripts/fanmind_release_decision_core_legacy.py:368-377 | the effective risk is the highest of the declared risk, the contract floors and the invariant floors |
| HardeningEvaluator.ProveGate | scripts/fanmind_release_decision_core_legacy.py:413-514 | the contract, role, independence and requirement passes over one mandatory gate find no blocker exactly when its semantic proof contract holds |
| HardeningEvaluator.HardeningBlockers | scripts/fanmind_release_decision_core_legacy.py:189-516 | the hardening layer finds no blocker exactly when its conditions hold |
| ReleaseDecision.CollectEligible | scripts/fanmind_release_decision_core_round8.py:254-321 | the record loop keeps exactly the participating, fully fresh records |
| ReleaseDecision.Round8Blockers | scripts/fanmind_release_decision_core_round8.py:129-382 | on unambiguous registries round 8 finds no blocker exactly when its counterclaims and class quorum hold |
| ReleaseDecision.Round11Blockers | scripts/fanmind_release_decision_core_round11.py:27-250 | on unambiguous registries round 11 finds no blocker exactly when the strict quorum holds |
| ReleaseDecision.EvaluateLegacy | scripts/fanmind_release_decision_core_legacy.py:519-595 | the legacy wrapper blocks exactly when a screen, the base or the hardening layer does |
| ReleaseDecision.Evaluate | scripts/fanmind_release_decision_core_round11.py:253-317 | the whole chain returns the specified verdict |
| ReleaseEquivalence.FourLayersAreOnePolicy | scripts/fanmind_release_decision_core_round11.py:253-317 | all four layers together accept exactly the requests that one policy, written on the fields of the request, allows; every gate is then mandatory and the earlier quorums follow from the strict one |
| ReleaseEquivalence.VerdictExactly | scripts/_fanmind_release_decision_base.py:661-835 | the verdict for every request: BLOCK unless the screens are clear and the policy allows it, the owner's for a protected action, else ALLOW |
| ReleaseEquivalence.AcceptedEvidenceIsFresh | scripts/_fanmind_release_decision_base.py:486-563 | unless the verdict is BLOCK every bound record is of this commit and target, within its time to live, and its fingerprint of every trigger of its class equals the trigger's current, non-empty state |
| ReleaseEquivalence.EveryGateIsMandatory | scripts/_fanmind_release_decision_base.py:295-318 | in a request whose registries are accepted, every gate of the registry is mandatory in every layer |
| ReleaseEquivalence.EffectiveRiskIsHighest | scripts/fanmind_release_decision_core_legacy.py:368-377 | whatever the request, the effective risk is the highest of the declared one and the floors of affected contracts and required invariants |
| ReleaseLayerMeaning.HardeningCurrentExactly | scripts/fanmind_release_decision_core_legacy.py:99-146 | what the hardening layer by itself asks of a bound record, on its fields |
| ReleaseLayerMeaning.BaseParticipatesExactly | scripts/_fanmind_release_decision_base.py:451-658 | who takes part in the base quorum: selected in a needed role, bound to a gate in a role it asks for, or to an invariant in a needed role |
| ReleaseLayerMeaning.QuorumExactly | scripts/_fanmind_release_decision_base.py:451-658 | the base quorum: one classified record, and from R3 on two classes and two records of different classes that share no provenance |
| ReleaseLayerMeaning.CounterclaimsExactly | scripts/fanmind_release_decision_core_round8.py:129-382 | round 8 on one gate: a countercheck requirement that is claimed beside an implementation record is claimed by a record independent of one |
| ReleaseLayerMeaning.EligibleExactly | scripts/fanmind_release_decision_core_round11.py:27-250 | whom rounds 8 and 11 count among the current records, each by its own rule, on the fields |
| ReleaseProperties.CurrentEvidenceAgrees | scripts/fanmind_release_decision_core_legacy.py:99-146 | when every binding is sound, the base's valid records and the later layers' current records are the same |
| ReleaseProperties.ImpactMapIsExactInverse | scripts/fanmind_release_decision_core_legacy.py:314-377 | on affected contracts the impact map and the gate registry are exact inverses |
| ReleaseProperties.MandatoryGatesAgree | scripts/_fanmind_release_decision_base.py:295-318 | impact map, inverted gate registry and quorum layers select the same mandatory gates |
| ReleaseProperties.EffectiveRiskAgrees | scripts/_fanmind_release_decision_base.py:733-756 | the later layers' effective risk is the declared one, at or above every contract and invariant floor |
| ReleaseProperties.LayersAgree | scripts/fanmind_release_decision_core_round11.py:69-139 | whenever no layer blocks, all of them computed the same evidence, gates and risk |
| ReleaseProperties.FourEyesGuarantee | scripts/fanmind_release_decision_core_legacy.py:413-514 | a verdict other than BLOCK at R2 or higher means that every mandatory gate is proven by two different current records with all provenance fields different, one implementation and one countercheck, both fresh for every affected contract behind it, and every requirement is claimed in its mapped role |
| ReleaseProperties.StrictQuorumSubsumes | scripts/fanmind_release_decision_core_round11.py:149-250 | at R3 and R4 round 11's records are among round 8's and those among the base participants, so the strict quorum passing implies both earlier quorums |
| ReleaseProperties.AcceptanceIgnoresOrder | scripts/_fanmind_release_decision_base.py:321-338 | reordering registries, evidence, bindings or affected contracts never changes acceptance |
| ReleaseProperties.VerdictIgnoresOrder | scripts/_fanmind_release_decision_base.py:661-835 | the verdict of all four layers is the same for every order of the lists |
| ReleaseExample.SomeRequestIsAllowed | scripts/fanmind_release_decision_core_round11.py:253-317 | a complete request at R3 passes all four layers, so the guarantees above are not about nothing |
| AdmissionHistory.CollectHistory | scripts/fanmind_orchestrator_admission.py:1042-1072 | the loop over prior runs returns what the list shows, or the first error |
| AdmissionHistory.NewestFirstSorts | scripts/fanmind_orchestrator_admission.py:1030-1041 | prior runs are the same runs, ordered by start and id, newest first |
| AdmissionHistory.HistoryMeaning | scripts/fanmind_orchestrator_admission.py:1042-1075 | the latest run is the newest one not rejected; without a match every run of the same identity was rejected; only legacy runs are untitled |
| AdmissionMeaning.AttemptStateExactly | scripts/fanmind_orchestrator_admission.py:852-877 | the state of an attempt on its steps: accepted, rejected, unresolved or unreadable, each exactly when the first transport and admit steps say so |
| AdmissionMeaning.RunStateExactly | scripts/fanmind_orchestrator_admission.py:880-895 | the state of a run on its attempts, each state and each error exactly when it is due |
| AdmissionMeaning.HistoryErrorExactly | scripts/fanmind_orchestrator_admission.py:1042-1072 | reading the list fails exactly at its first foreign run or needed run without a readable state, with that error |
| Admission.SendMeansHistoryReconciled | scripts/fanmind_orchestrator_admission.py:341-378 | a SEND decision means that no other run of this identity got past rejection and that the newest run not rejected is accepted, completed, successful and named by the receipt |
| AdmissionMeaning.EvaluateExactly | scripts/fanmind_orchestrator_admission.py:613-712 | SEND exactly when no check complains on the fields of handoff, receipt, history and surroundings; otherwise the reason is the first check, in the order of the source, that does |
| AdmissionMeaning.AdmitExactly | scripts/fanmind_orchestrator_admission.py:1030-1101 | over any list with one run per id, SEND exactly when the handoff fits its receipt and surroundings, no other run of its identity got past rejection, and the newest run not rejected is the reconciled one the receipt names, or there is none after an accepted completion and the bootstrap markers match |
| AdmissionProtocol.StepKeepsInv | scripts/fanmind_orchestrator_admission.py:1030-1101 | creation, receipt landing, reading, admission, rejection before or after a SEND decision, transport and re-run all keep the protocol invariant |
| AdmissionProtocol.TransportedAtMostOnce | scripts/fanmind_orchestrator_admission.py:613-694 | under every interleaving each handoff, task and digest is transported by at most one run, in one attempt |
| AdmissionProtocol.TransportsAreSerial | scripts/fanmind_orchestrator_admission.py:341-378 | the runs that transported form a list without repetition, and each but the first was admitted on a typed receipt from main that names the run delivered just before it |
| AdmissionProtocol.FailStop | scripts/fanmind_orchestrator_admission.py:852-895 | once a transport is lost no run is granted any more, and no run is ever delivered that was not delivered before |
| AdmissionProtocol.FailStopReachable | scripts/fanmind_orchestrator_admission.py:1042-1088 | the same from every state that any history reaches |
| AdmissionProgress.FirstHandoffIsDelivered | scripts/fanmind_orchestrator_admission.py:613-712 | on an empty history a handoff that passes the other checks is admitted and delivered |
| AdmissionProgress.NextHandoffIsSent | scripts/fanmind_orchestrator_admission.py:1030-1101 | after any delivered, never re-run run behind which nothing is open, a waiting run is sent as soon as its own checks pass |
| AdmissionProgress.SecondHandoffIsDelivered | scripts/fanmind_orchestrator_admission.py:613-712 | once a receipt naming the first handoff is on main, a second one is admitted and delivered after it |
| Pagination.Collect | scripts/fanmind_orchestrator_admission.py:795-820 | the page loop returns the specified result for arbitrary answers |
| Pagination.CollectExactly | scripts/fanmind_orchestrator_admission.py:795-820 | the first page that is not full and consistent decides the outcome: unreadable, too large, changed, not matching its total, or the complete list; ten full pages are incomplete |
| Pagination.FixedListIsReadExactlyBelowThousand | scripts/fanmind_orchestrator_admission.py:898-924 | against a fixed list the loop returns it exactly when it has fewer than 1000 entries and refuses otherwise |
| Pagination.ReturnedListMatchesEveryPage | scripts/fanmind_orchestrator_admission.py:823-849 | any returned list is the pages read, every one of which announced exactly its length |
| CapacityBudget.RoundTrip | src/lib/aiCapacityAdmin.ts:164-181 | parsing a printed amount gives it back for every amount from 1 below 10^15, and larger ones are refused |
| CapacityBudget.ParsedValuesAreExact | src/lib/aiCapacityAdmin.ts:164-174 | every intermediate value of the parser is an integer below 2^53 |
| CapacityBudget.ParseFormatParse | src/lib/aiCapacityAdmin.ts:164-181 | printing the amount of any accepted text and parsing again gives the same amount |
| CapacityBudget.ParseExactly | src/lib/aiCapacityAdmin.ts:164-174 | null exactly for an absent or blank value, an amount exactly for a positive decimal with up to seven and eight digits, comma or dot, between blanks, and undefined for everything else |
| CapacityBudget.FormatExactly | src/lib/aiCapacityAdmin.ts:176-181 | the printed text has the shortest digits, a comma only before a fraction, and no zero at the end of the fraction |

## Left out

- Scopes.ScopeConflicts: reasons are values of a datatype, not the exact words of the message.
- WorkSlots.ActiveWorkSlots: starts from records and locks whose fields are already extracted; the regular expressions over Markdown are not modelled.
- Manager.BuildSafeReadySet: the joined text of reasons is not modelled; a conflict list is a set because the source sorts and deduplicates it.
- Manager.JudgeSlot: the two lists `active_actions` and `active_reservations` are one list of workers.
- TsLexer.PropertyValueStart: letters, digits and white space are the ASCII ones; Python's classes also hold other Unicode characters.
- TsLexer.BalancedLiteral: the quote, escape and comment flags, of which at most one group is ever set, are one value `Mode`; opening and closing are different characters that are neither quotes nor slashes, as at every call.
- Roadmap.StringProperty: a lone surrogate escape, which `json.loads` accepts, is an error here, because a Dafny character is a Unicode scalar value.
- Roadmap.ProductRoadmapOpenItems: digits and white space are the ASCII ones; `isdigit` and the pattern also accept other Unicode characters.
- RoadmapRoundTrip.RoadmapReadsBack: only white space surrounds a colon, because the property scanner does not look behind a comment there; commas may stand anywhere between fields and objects.
- BaseEvaluator.BaseBlockers: which blocker strings are listed, and in which order, is specified only up to the list being empty; the verdict is specified completely. The same holds for the other layers' blocker lists.
- HardeningEvaluator.HardeningBlockers: promises its result for unambiguous registries, because the base layer blocks all others.
- ReleaseDecision.Round8Blockers: promises its result for unambiguous registries, because the source calls it only after the earlier layers accepted.
- ReleaseDecision.Round11Blockers: the same.
- ReleaseDecision.CollectEligible: rounds 8 and 11 repeat the loop over gates and invariants with the same tests; it is written once and the participation rule is the parameter.
- ReleaseDecision.Evaluate: the screens of `fanmind_release_decision_core.py` and of the two round-12 files are one condition that may only block.
- ReleaseProperties.VerdictIgnoresOrder: the outcome of those screens is taken to be the same for both orders.
- HardeningEvaluator.CurrentEntries: times and lifetimes are real minutes, so NaN and rounding of floating-point hours do not occur.
- AdmissionHistory.CollectHistory: the run title is already matched against its pattern, and a failing job request is the unreadable case.
- Admission.SendMeansHistoryReconciled: envelope construction, source acceptance of the previous pull request, selection and owner binding are booleans of the surroundings.
- CapacityBudget.RoundTrip: amounts are natural numbers; a number beyond 2^53 that JavaScript could not hold is not represented.
- The closeout evaluation, `dispatch_with_github` and sending to the builder: I/O around the decision.
- `reconcile_product_roadmap`, `persisted_failed_action_ids`, rendering of reports and the embedded contract checks of the script: text plumbing.
- HMAC attestation, SHA-256 digests, fingerprints of control-plane files and protected-action derivation: library calls, present as booleans or given values.
- HTTP, git and Supabase clients, command lines, React components and SQL: I/O and user interface.
