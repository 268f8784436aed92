/**
 Pairwise scope conflicts between two actions
 (scripts/fanmind_next_best_action.py, `_scope_values` to `scope_conflicts`).
 */
module Scopes {
  import opened Wrappers
  import opened Catalog
  import opened RepositoryPaths

  datatype ScopeReason =
    | SameTask
    | ScopeUnknown
    | InvalidPath(key: ScopeKey)
    | SharedValue(key: ScopeKey)
    | FileDirectoryOverlap
    | CrossOverlap(leftKey: ScopeKey, rightKey: ScopeKey)

  const SCOPE_KEYS: seq<ScopeKey> :=
    [Files, Directories, Modules, Contracts, Database, Apis, ProjectMemory, Ci, Runtime, Provider, Environment]

  const PATH_KEYS: seq<ScopeKey> := [Files, Directories, ProjectMemory, Ci]

  predicate IsPathKey(key: ScopeKey) {
    key.Files? || key.Directories? || key.ProjectMemory? || key.Ci?
  }

  /** The values of one scope category; an absent category or an empty value makes it unreadable. */
  function ScopeValues(action: Action, key: ScopeKey): Option<seq<string>> {
    if action.scope.None? || key !in action.scope.value || "" in action.scope.value[key] then None
    else Some(action.scope.value[key])
  }

  /** `_scope_values(...) or ()`. */
  function Values(action: Action, key: ScopeKey): seq<string> {
    match ScopeValues(action, key)
    case None => []
    case Some(values) => values
  }

  predicate ScopeComplete(action: Action) {
    (forall key <- SCOPE_KEYS :: ScopeValues(action, key).Some?) &&
    exists key <- SCOPE_KEYS :: Values(action, key) != []
  }

  /** Some value of one list overlaps some value of the other as a repository path. */
  predicate AnyOverlap(left: seq<string>, right: seq<string>) {
    exists a <- left, b <- right :: PathOverlap(a, b)
  }

  predicate AnyInvalid(values: seq<string>) {
    exists value <- values :: Canonical(value).None?
  }

  predicate AnyShared(left: seq<string>, right: seq<string>) {
    exists value <- left :: value in right
  }

  /** The reason one category contributes on its own, if any. */
  function SameKeyReasons(left: Action, right: Action, key: ScopeKey): seq<ScopeReason> {
    var l, r := Values(left, key), Values(right, key);
    if IsPathKey(key) then
      if AnyInvalid(l + r) then [InvalidPath(key)]
      else if AnyOverlap(l, r) then [SharedValue(key)]
      else []
    else if AnyShared(l, r) then [SharedValue(key)]
    else []
  }

  function KeyReasons(left: Action, right: Action, keys: seq<ScopeKey>): seq<ScopeReason> {
    if keys == [] then []
    else KeyReasons(left, right, keys[..|keys| - 1]) + SameKeyReasons(left, right, keys[|keys| - 1])
  }

  function CrossReason(leftKey: ScopeKey, rightKey: ScopeKey): ScopeReason {
    if {leftKey, rightKey} == {Files, Directories} then FileDirectoryOverlap else CrossOverlap(leftKey, rightKey)
  }

  function AddCross(left: Action, right: Action, leftKey: ScopeKey, rightKey: ScopeKey, reasons: seq<ScopeReason>)
    : seq<ScopeReason>
  {
    if leftKey == rightKey || !AnyOverlap(Values(left, leftKey), Values(right, rightKey)) then reasons
    else
      var reason := CrossReason(leftKey, rightKey);
      if reason in reasons then reasons else reasons + [reason]
  }

  function CrossRow(left: Action, right: Action, leftKey: ScopeKey, rightKeys: seq<ScopeKey>, reasons: seq<ScopeReason>)
    : seq<ScopeReason>
  {
    if rightKeys == [] then reasons
    else
      var n := |rightKeys| - 1;
      AddCross(left, right, leftKey, rightKeys[n], CrossRow(left, right, leftKey, rightKeys[..n], reasons))
  }

  function CrossReasons(left: Action, right: Action, leftKeys: seq<ScopeKey>, rightKeys: seq<ScopeKey>,
                        reasons: seq<ScopeReason>)
    : seq<ScopeReason>
  {
    if leftKeys == [] then reasons
    else
      var n := |leftKeys| - 1;
      CrossRow(left, right, leftKeys[n], rightKeys, CrossReasons(left, right, leftKeys[..n], rightKeys, reasons))
  }

  /** The reason list of two actions, in the order it is reported. */
  function ConflictReasons(left: Action, right: Action): seq<ScopeReason> {
    if left.task == right.task then [SameTask]
    else if !ScopeComplete(left) || !ScopeComplete(right) then [ScopeUnknown]
    else CrossReasons(left, right, PATH_KEYS, PATH_KEYS, KeyReasons(left, right, SCOPE_KEYS))
  }

  /** Growing the reason list category by category, then pair by pair, yields exactly the specified list. */
  method ScopeConflicts(left: Action, right: Action) returns (reasons: seq<ScopeReason>)
    ensures reasons == ConflictReasons(left, right)
  {
    if left.task == right.task {
      return [SameTask];
    }
    if !ScopeComplete(left) || !ScopeComplete(right) {
      return [ScopeUnknown];
    }
    reasons := SameKeyPass(left, right, SCOPE_KEYS);
    reasons := CrossKeyPass(left, right, PATH_KEYS, reasons);
  }

  method SameKeyPass(left: Action, right: Action, keys: seq<ScopeKey>) returns (reasons: seq<ScopeReason>)
    ensures reasons == KeyReasons(left, right, keys)
  {
    reasons := [];
    for i := 0 to |keys|
      invariant reasons == KeyReasons(left, right, keys[..i])
    {
      var key := keys[i];
      assert keys[..i + 1][..i] == keys[..i];
      var l, r := Values(left, key), Values(right, key);
      if IsPathKey(key) {
        if AnyInvalid(l + r) {
          reasons := reasons + [InvalidPath(key)];
        } else if AnyOverlap(l, r) {
          reasons := reasons + [SharedValue(key)];
        }
      } else if AnyShared(l, r) {
        reasons := reasons + [SharedValue(key)];
      }
    }
    assert keys[..|keys|] == keys;
  }

  method CrossKeyPass(left: Action, right: Action, keys: seq<ScopeKey>, before: seq<ScopeReason>)
      returns (reasons: seq<ScopeReason>)
    ensures reasons == CrossReasons(left, right, keys, keys, before)
  {
    reasons := before;
    for i := 0 to |keys|
      invariant reasons == CrossReasons(left, right, keys[..i], keys, before)
    {
      var leftKey := keys[i];
      assert keys[..i + 1][..i] == keys[..i];
      ghost var row := reasons;
      for j := 0 to |keys|
        invariant reasons == CrossRow(left, right, leftKey, keys[..j], row)
      {
        var rightKey := keys[j];
        assert keys[..j + 1][..j] == keys[..j];
        if leftKey != rightKey && AnyOverlap(Values(left, leftKey), Values(right, rightKey)) {
          var reason := CrossReason(leftKey, rightKey);
          if reason !in reasons {
            reasons := reasons + [reason];
          }
        }
      }
      assert keys[..|keys|] == keys;
    }
    assert keys[..|keys|] == keys;
  }

  // ----- what an empty reason list means -----

  /** No repository location lies in or under both spellings, and both are valid. */
  ghost predicate Apart(a: string, b: string) {
    Canonical(a).Some? && Canonical(b).Some? &&
    forall place :: !(Under(place, Segments(Canonical(a).value)) && Under(place, Segments(Canonical(b).value)))
  }

  ghost predicate ValidValues(action: Action) {
    forall key, value :: IsPathKey(key) && value in Values(action, key) ==> Canonical(value).Some?
  }

  /** Disjoint scopes, in terms of the values the passes compare. */
  ghost predicate DisjointValues(left: Action, right: Action) {
    left.task != right.task && ScopeComplete(left) && ScopeComplete(right) &&
    ValidValues(left) && ValidValues(right) &&
    (forall key, value :: !IsPathKey(key) && value in Values(left, key) ==> value !in Values(right, key)) &&
    (forall leftKey, rightKey, a, b ::
       IsPathKey(leftKey) && IsPathKey(rightKey) && a in Values(left, leftKey) && b in Values(right, rightKey) ==>
         Apart(a, b))
  }

  lemma KeysListed(key: ScopeKey)
    ensures key in SCOPE_KEYS && (IsPathKey(key) <==> key in PATH_KEYS)
  {
  }

  lemma {:induction false} KeyReasonsEmpty(left: Action, right: Action, keys: seq<ScopeKey>)
    ensures KeyReasons(left, right, keys) == [] <==> forall key <- keys :: SameKeyReasons(left, right, key) == []
  {
    if keys != [] {
      KeyReasonsEmpty(left, right, keys[..|keys| - 1]);
      assert forall key :: key in keys <==> key in keys[..|keys| - 1] || key == keys[|keys| - 1];
      assert keys[|keys| - 1] in keys;
    }
  }

  ghost predicate CrossClear(left: Action, right: Action, leftKey: ScopeKey, rightKey: ScopeKey) {
    leftKey == rightKey || !AnyOverlap(Values(left, leftKey), Values(right, rightKey))
  }

  lemma {:induction false} CrossRowEmpty(left: Action, right: Action, leftKey: ScopeKey, rightKeys: seq<ScopeKey>,
                                         reasons: seq<ScopeReason>)
    ensures CrossRow(left, right, leftKey, rightKeys, reasons) == [] <==>
      reasons == [] && forall rightKey <- rightKeys :: CrossClear(left, right, leftKey, rightKey)
  {
    if rightKeys != [] {
      var n := |rightKeys| - 1;
      CrossRowEmpty(left, right, leftKey, rightKeys[..n], reasons);
      assert forall key :: key in rightKeys <==> key in rightKeys[..n] || key == rightKeys[n];
      assert rightKeys[n] in rightKeys;
    }
  }

  lemma {:induction false} CrossReasonsEmpty(left: Action, right: Action, leftKeys: seq<ScopeKey>,
                                             rightKeys: seq<ScopeKey>, reasons: seq<ScopeReason>)
    ensures CrossReasons(left, right, leftKeys, rightKeys, reasons) == [] <==>
      reasons == [] && forall leftKey <- leftKeys, rightKey <- rightKeys :: CrossClear(left, right, leftKey, rightKey)
  {
    if leftKeys != [] {
      var n := |leftKeys| - 1;
      CrossReasonsEmpty(left, right, leftKeys[..n], rightKeys, reasons);
      CrossRowEmpty(left, right, leftKeys[n], rightKeys, CrossReasons(left, right, leftKeys[..n], rightKeys, reasons));
      assert forall key :: key in leftKeys <==> key in leftKeys[..n] || key == leftKeys[n];
      assert leftKeys[n] in leftKeys;
    }
  }

  lemma NoReasonsMeansDisjointValues(left: Action, right: Action)
    ensures ConflictReasons(left, right) == [] <==> DisjointValues(left, right)
  {
    if left.task != right.task && ScopeComplete(left) && ScopeComplete(right) {
      forall key: ScopeKey ensures key in SCOPE_KEYS && (IsPathKey(key) <==> key in PATH_KEYS) { KeysListed(key); }
      KeyReasonsEmpty(left, right, SCOPE_KEYS);
      CrossReasonsEmpty(left, right, PATH_KEYS, PATH_KEYS, KeyReasons(left, right, SCOPE_KEYS));
      forall a, b ensures !PathOverlap(a, b) <==> Apart(a, b) { OverlapMeansSharedLocation(a, b); }
      if ConflictReasons(left, right) == [] { ClearImpliesDisjoint(left, right); }
      if DisjointValues(left, right) { DisjointImpliesClear(left, right); }
    }
  }

  /** What the two reason passes report as clear. */
  ghost predicate AllClear(left: Action, right: Action) {
    (forall key :: SameKeyReasons(left, right, key) == []) &&
    (forall leftKey, rightKey :: IsPathKey(leftKey) && IsPathKey(rightKey) ==>
      CrossClear(left, right, leftKey, rightKey))
  }

  lemma ClearKeysAreApart(left: Action, right: Action)
    requires AllClear(left, right)
    ensures ValidValues(left) && ValidValues(right)
    ensures forall key, value :: !IsPathKey(key) && value in Values(left, key) ==> value !in Values(right, key)
  {
    forall key, value | IsPathKey(key) && (value in Values(left, key) || value in Values(right, key))
      ensures Canonical(value).Some?
    {
      assert SameKeyReasons(left, right, key) == [];
      assert value in Values(left, key) + Values(right, key);
    }
    forall key, value | !IsPathKey(key) && value in Values(left, key) ensures value !in Values(right, key) {
      assert SameKeyReasons(left, right, key) == [];
    }
  }

  lemma ClearImpliesDisjoint(left: Action, right: Action)
    requires left.task != right.task && ScopeComplete(left) && ScopeComplete(right)
    requires forall a, b :: !PathOverlap(a, b) <==> Apart(a, b)
    requires AllClear(left, right)
    ensures DisjointValues(left, right)
  {
    ClearKeysAreApart(left, right);
    forall leftKey, rightKey, a, b |
      IsPathKey(leftKey) && IsPathKey(rightKey) && a in Values(left, leftKey) && b in Values(right, rightKey)
      ensures Apart(a, b)
    {
      assert SameKeyReasons(left, right, leftKey) == [];
      assert CrossClear(left, right, leftKey, rightKey);
      assert !AnyOverlap(Values(left, leftKey), Values(right, rightKey));
      assert !PathOverlap(a, b);
    }
  }

  lemma DisjointImpliesClear(left: Action, right: Action)
    requires forall a, b :: !PathOverlap(a, b) <==> Apart(a, b)
    requires DisjointValues(left, right)
    ensures AllClear(left, right)
  {
    forall leftKey, rightKey | IsPathKey(leftKey) && IsPathKey(rightKey)
      ensures !AnyOverlap(Values(left, leftKey), Values(right, rightKey))
    {
      forall a, b | a in Values(left, leftKey) && b in Values(right, rightKey) ensures !PathOverlap(a, b) {
        assert Apart(a, b);
      }
    }
    forall key: ScopeKey ensures SameKeyReasons(left, right, key) == [] {
      if IsPathKey(key) {
        assert !AnyOverlap(Values(left, key), Values(right, key));
      }
    }
  }

  // ----- in terms of the declared scopes -----

  /** The value is declared under the category, and the category holds no empty value. */
  ghost predicate Owns(action: Action, key: ScopeKey, value: string) {
    action.scope.Some? && key in action.scope.value && "" !in action.scope.value[key] &&
    value in action.scope.value[key]
  }

  /** Every category is declared without empty values, and something is owned at all. */
  ghost predicate FullyDeclared(action: Action) {
    action.scope.Some? &&
    (forall key: ScopeKey :: key in action.scope.value && "" !in action.scope.value[key]) &&
    exists key, value :: Owns(action, key, value)
  }

  /** The categories that own repository paths. */
  const PATH_CATEGORIES: set<ScopeKey> := {Files, Directories, ProjectMemory, Ci}

  ghost predicate OwnsPath(action: Action, path: string) {
    exists key :: key in PATH_CATEGORIES && Owns(action, key, path)
  }

  /**
   Two actions may run side by side: different tasks, fully declared scopes, no shared non-path
   value, and no repository location owned by both through any of the four path categories.
   */
  ghost predicate Disjoint(left: Action, right: Action) {
    && left.task != right.task && FullyDeclared(left) && FullyDeclared(right)
    && (forall path :: OwnsPath(left, path) || OwnsPath(right, path) ==> Canonical(path).Some?)
    && (forall key, value :: key !in PATH_CATEGORIES && Owns(left, key, value) ==> !Owns(right, key, value))
    && (forall a, b :: OwnsPath(left, a) && OwnsPath(right, b) ==> Apart(a, b))
  }

  lemma ValuesMean(action: Action)
    ensures forall key, value :: value in Values(action, key) <==> Owns(action, key, value)
    ensures ScopeComplete(action) <==> FullyDeclared(action)
  {
    forall key: ScopeKey ensures key in SCOPE_KEYS { KeysListed(key); }
    if FullyDeclared(action) {
      var key, value :| Owns(action, key, value);
      assert value in Values(action, key);
    }
    if ScopeComplete(action) {
      var key :| key in SCOPE_KEYS && Values(action, key) != [];
      assert Values(action, key)[0] in Values(action, key);
      assert Owns(action, key, Values(action, key)[0]);
      forall key: ScopeKey ensures key in action.scope.value && "" !in action.scope.value[key] {
        assert ScopeValues(action, key).Some?;
      }
    }
  }

  lemma PathKeysMean(key: ScopeKey)
    ensures IsPathKey(key) <==> key in PATH_CATEGORIES
  {
  }

  lemma DisjointMeans(left: Action, right: Action)
    ensures DisjointValues(left, right) <==> Disjoint(left, right)
  {
    ValuesMean(left);
    ValuesMean(right);
    forall key ensures IsPathKey(key) <==> key in PATH_CATEGORIES { PathKeysMean(key); }
    if Disjoint(left, right) {
      forall key, value | IsPathKey(key) && (value in Values(left, key) || value in Values(right, key))
        ensures Canonical(value).Some?
      {
        assert OwnsPath(left, value) || OwnsPath(right, value);
      }
      forall leftKey, rightKey, a, b |
        IsPathKey(leftKey) && IsPathKey(rightKey) && a in Values(left, leftKey) && b in Values(right, rightKey)
        ensures Apart(a, b)
      {
        assert OwnsPath(left, a) && OwnsPath(right, b);
      }
    }
  }

  /** The reason list is empty exactly when the two actions own disjoint scopes. */
  lemma NoReasonsMeansDisjoint(left: Action, right: Action)
    ensures ConflictReasons(left, right) == [] <==> Disjoint(left, right)
  {
    NoReasonsMeansDisjointValues(left, right);
    DisjointMeans(left, right);
  }

  /** Swapping the two actions never changes whether they conflict. */
  lemma ConflictFreedomIsSymmetric(left: Action, right: Action)
    ensures ConflictReasons(left, right) == [] <==> ConflictReasons(right, left) == []
  {
    NoReasonsMeansDisjoint(left, right);
    NoReasonsMeansDisjoint(right, left);
    forall a, b ensures Apart(a, b) <==> Apart(b, a) {}
  }

  // ----- what each reason says -----

  /** A path of one and a path of the other that are not apart; an invalid path is apart from nothing. */
  ghost predicate Overlapping(left: Action, leftKey: ScopeKey, right: Action, rightKey: ScopeKey) {
    exists a, b :: Owns(left, leftKey, a) && Owns(right, rightKey, b) && !Apart(a, b)
  }

  ghost predicate HasInvalid(left: Action, right: Action, key: ScopeKey) {
    exists path :: (Owns(left, key, path) || Owns(right, key, path)) && Canonical(path).None?
  }

  ghost predicate Holds(reason: ScopeReason, left: Action, right: Action) {
    match reason
    case SameTask => left.task == right.task
    case ScopeUnknown => left.task != right.task && !(FullyDeclared(left) && FullyDeclared(right))
    case _ =>
      left.task != right.task && FullyDeclared(left) && FullyDeclared(right) && HoldsDeclared(reason, left, right)
  }

  /** The reasons that compare two fully declared scopes. */
  ghost predicate HoldsDeclared(reason: ScopeReason, left: Action, right: Action) {
    match reason
    case SameTask => false
    case ScopeUnknown => false
    case InvalidPath(key) => key in PATH_CATEGORIES && HasInvalid(left, right, key)
    case SharedValue(key) =>
      if key in PATH_CATEGORIES then !HasInvalid(left, right, key) && Overlapping(left, key, right, key)
      else exists value :: Owns(left, key, value) && Owns(right, key, value)
    case FileDirectoryOverlap =>
      Overlapping(left, Files, right, Directories) || Overlapping(left, Directories, right, Files)
    case CrossOverlap(leftKey, rightKey) =>
      leftKey in PATH_CATEGORIES && rightKey in PATH_CATEGORIES && leftKey != rightKey &&
      {leftKey, rightKey} != {Files, Directories} && Overlapping(left, leftKey, right, rightKey)
  }

  lemma OverlappingMeans(left: Action, leftKey: ScopeKey, right: Action, rightKey: ScopeKey)
    ensures AnyOverlap(Values(left, leftKey), Values(right, rightKey)) <==> Overlapping(left, leftKey, right, rightKey)
  {
    ValuesMean(left);
    ValuesMean(right);
    forall a, b ensures PathOverlap(a, b) <==> !Apart(a, b) { OverlapMeansSharedLocation(a, b); }
  }

  lemma InvalidMeans(left: Action, right: Action, key: ScopeKey)
    ensures AnyInvalid(Values(left, key) + Values(right, key)) <==> HasInvalid(left, right, key)
  {
    ValuesMean(left);
    ValuesMean(right);
    forall path
      ensures path in Values(left, key) + Values(right, key) <==> Owns(left, key, path) || Owns(right, key, path)
    {}
  }

  lemma SameKeyMeans(left: Action, right: Action, key: ScopeKey, reason: ScopeReason)
    ensures reason in SameKeyReasons(left, right, key) <==>
      (reason == InvalidPath(key) || reason == SharedValue(key)) && HoldsDeclared(reason, left, right)
  {
    PathKeysMean(key);
    InvalidMeans(left, right, key);
    OverlappingMeans(left, key, right, key);
    ValuesMean(left);
    ValuesMean(right);
  }

  lemma {:induction false} KeyReasonsMean(left: Action, right: Action, keys: seq<ScopeKey>, reason: ScopeReason)
    ensures reason in KeyReasons(left, right, keys) <==>
      exists key <- keys :: reason in SameKeyReasons(left, right, key)
  {
    if keys != [] {
      KeyReasonsMean(left, right, keys[..|keys| - 1], reason);
      assert forall key :: key in keys <==> key in keys[..|keys| - 1] || key == keys[|keys| - 1];
    }
  }

  ghost predicate CrossGives(left: Action, right: Action, leftKey: ScopeKey, rightKey: ScopeKey, reason: ScopeReason) {
    leftKey != rightKey && AnyOverlap(Values(left, leftKey), Values(right, rightKey)) &&
    reason == CrossReason(leftKey, rightKey)
  }

  lemma AddCrossMeans(left: Action, right: Action, leftKey: ScopeKey, rightKey: ScopeKey, reasons: seq<ScopeReason>,
                      reason: ScopeReason)
    ensures reason in AddCross(left, right, leftKey, rightKey, reasons) <==>
      (reason in reasons || CrossGives(left, right, leftKey, rightKey, reason))
  {
    var given := CrossReason(leftKey, rightKey);
    assert reason in reasons + [given] <==> reason in reasons || reason == given;
  }

  lemma {:induction false} CrossRowMeans(left: Action, right: Action, leftKey: ScopeKey, rightKeys: seq<ScopeKey>,
                                         reasons: seq<ScopeReason>, reason: ScopeReason)
    ensures reason in CrossRow(left, right, leftKey, rightKeys, reasons) <==>
      (reason in reasons || exists rightKey <- rightKeys :: CrossGives(left, right, leftKey, rightKey, reason))
  {
    if rightKeys != [] {
      var n := |rightKeys| - 1;
      CrossRowMeans(left, right, leftKey, rightKeys[..n], reasons, reason);
      AddCrossMeans(left, right, leftKey, rightKeys[n], CrossRow(left, right, leftKey, rightKeys[..n], reasons),
        reason);
      assert forall key :: key in rightKeys <==> key in rightKeys[..n] || key == rightKeys[n];
    }
  }

  lemma {:induction false} CrossReasonsMean(left: Action, right: Action, leftKeys: seq<ScopeKey>,
                                            rightKeys: seq<ScopeKey>, reasons: seq<ScopeReason>, reason: ScopeReason)
    ensures reason in CrossReasons(left, right, leftKeys, rightKeys, reasons) <==>
      (reason in reasons ||
       exists leftKey <- leftKeys, rightKey <- rightKeys :: CrossGives(left, right, leftKey, rightKey, reason))
  {
    if leftKeys != [] {
      var n := |leftKeys| - 1;
      CrossReasonsMean(left, right, leftKeys[..n], rightKeys, reasons, reason);
      CrossRowMeans(left, right, leftKeys[n], rightKeys, CrossReasons(left, right, leftKeys[..n], rightKeys, reasons),
        reason);
      assert forall key :: key in leftKeys <==> key in leftKeys[..n] || key == leftKeys[n];
    }
  }

  lemma CrossMeans(left: Action, right: Action, reason: ScopeReason)
    ensures
      (exists leftKey <- PATH_KEYS, rightKey <- PATH_KEYS :: CrossGives(left, right, leftKey, rightKey, reason)) <==>
      (reason.FileDirectoryOverlap? || reason.CrossOverlap?) && HoldsDeclared(reason, left, right)
  {
    forall leftKey, rightKey
      ensures AnyOverlap(Values(left, leftKey), Values(right, rightKey)) <==>
        Overlapping(left, leftKey, right, rightKey)
    {
      OverlappingMeans(left, leftKey, right, rightKey);
    }
    forall key ensures key in PATH_KEYS <==> key in PATH_CATEGORIES {}
    assert CrossReason(Files, Directories) == CrossReason(Directories, Files) == FileDirectoryOverlap by {
      assert {Directories, Files} == {Files, Directories};
    }
    if reason.FileDirectoryOverlap? && HoldsDeclared(reason, left, right) {
      assert CrossGives(left, right, Files, Directories, reason) || CrossGives(left, right, Directories, Files, reason);
    }
    if reason.CrossOverlap? && HoldsDeclared(reason, left, right) {
      assert CrossGives(left, right, reason.leftKey, reason.rightKey, reason);
    }
    forall leftKey, rightKey | leftKey != rightKey
      ensures CrossReason(leftKey, rightKey).FileDirectoryOverlap? <==>
        (leftKey == Files && rightKey == Directories) || (leftKey == Directories && rightKey == Files)
    {
      PairOfKeys(leftKey, rightKey);
    }
  }

  lemma PairOfKeys(leftKey: ScopeKey, rightKey: ScopeKey)
    requires leftKey != rightKey
    ensures {leftKey, rightKey} == {Files, Directories} <==>
      (leftKey == Files && rightKey == Directories) || (leftKey == Directories && rightKey == Files)
  {
    assert leftKey in {leftKey, rightKey} && rightKey in {leftKey, rightKey};
  }

  /** The reasons given are exactly those that hold. */
  lemma ReasonsExactly(left: Action, right: Action, reason: ScopeReason)
    ensures reason in ConflictReasons(left, right) <==> Holds(reason, left, right)
  {
    ValuesMean(left);
    ValuesMean(right);
    KeyReasonsMean(left, right, SCOPE_KEYS, reason);
    CrossReasonsMean(left, right, PATH_KEYS, PATH_KEYS, KeyReasons(left, right, SCOPE_KEYS), reason);
    CrossMeans(left, right, reason);
    forall key ensures reason in SameKeyReasons(left, right, key) <==>
        (reason == InvalidPath(key) || reason == SharedValue(key)) && HoldsDeclared(reason, left, right)
    {
      SameKeyMeans(left, right, key, reason);
    }
    forall key: ScopeKey ensures key in SCOPE_KEYS { KeysListed(key); }
  }

  // ----- no reason twice -----

  ghost predicate NoReasonTwice(reasons: seq<ScopeReason>) {
    forall i, j :: 0 <= i < j < |reasons| ==> reasons[i] != reasons[j]
  }

  lemma {:induction false} KeyReasonsOnce(left: Action, right: Action, keys: seq<ScopeKey>)
    requires forall i, j :: 0 <= i < j < |keys| ==> keys[i] != keys[j]
    ensures NoReasonTwice(KeyReasons(left, right, keys))
    ensures forall reason <- KeyReasons(left, right, keys) ::
      exists key <- keys :: reason == InvalidPath(key) || reason == SharedValue(key)
  {
    if keys != [] {
      var n := |keys| - 1;
      KeyReasonsOnce(left, right, keys[..n]);
      var front, last := KeyReasons(left, right, keys[..n]), SameKeyReasons(left, right, keys[n]);
      assert keys[n] in keys && forall key <- keys[..n] :: key in keys;
      assert |last| <= 1 && (last != [] ==> last[0] == InvalidPath(keys[n]) || last[0] == SharedValue(keys[n]));
      forall i | 0 <= i < |front| && last != [] ensures front[i] != last[0] {
        assert front[i] in front;
        var key :| key in keys[..n] && (front[i] == InvalidPath(key) || front[i] == SharedValue(key));
        var k :| 0 <= k < n && keys[k] == key;
      }
    }
  }

  lemma {:induction false} CrossRowOnce(left: Action, right: Action, leftKey: ScopeKey, rightKeys: seq<ScopeKey>,
                                        reasons: seq<ScopeReason>)
    requires NoReasonTwice(reasons)
    ensures NoReasonTwice(CrossRow(left, right, leftKey, rightKeys, reasons))
  {
    if rightKeys != [] {
      CrossRowOnce(left, right, leftKey, rightKeys[..|rightKeys| - 1], reasons);
    }
  }

  lemma {:induction false} CrossReasonsOnce(left: Action, right: Action, leftKeys: seq<ScopeKey>,
                                            rightKeys: seq<ScopeKey>, reasons: seq<ScopeReason>)
    requires NoReasonTwice(reasons)
    ensures NoReasonTwice(CrossReasons(left, right, leftKeys, rightKeys, reasons))
  {
    if leftKeys != [] {
      var n := |leftKeys| - 1;
      CrossReasonsOnce(left, right, leftKeys[..n], rightKeys, reasons);
      CrossRowOnce(left, right, leftKeys[n], rightKeys, CrossReasons(left, right, leftKeys[..n], rightKeys, reasons));
    }
  }

  /** No reason is given twice. */
  lemma ReasonsOnce(left: Action, right: Action)
    ensures NoReasonTwice(ConflictReasons(left, right))
  {
    KeyReasonsOnce(left, right, SCOPE_KEYS);
    CrossReasonsOnce(left, right, PATH_KEYS, PATH_KEYS, KeyReasons(left, right, SCOPE_KEYS));
  }
}
