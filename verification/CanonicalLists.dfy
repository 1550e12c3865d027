/** The lists of an execution profile that have one accepted spelling. */
module CanonicalLists {
  import opened Wrappers
  import opened Order

  const MAX_LIST_ITEMS: nat := 100

  datatype ListError = Invalid | Duplicate(name: string) | PublicAndSecret(name: string) | NotNormalized

  datatype EnvironmentVariable = EnvironmentVariable(name: string, value: string)

  datatype SecretBinding = SecretBinding(envName: string, secretId: string, secretVersion: int, exposure: string)

  // ----- Public environment

  predicate ByName(a: EnvironmentVariable, b: EnvironmentVariable) { LexLess(a.name, b.name) }

  function Names(value: seq<EnvironmentVariable>): set<string> { set v | v in value :: v.name }

  lemma ByNameIsStrictWeak()
    ensures StrictWeak(ByName)
  {
    LexIsStrictWeak();
  }

  ghost predicate DistinctNames(value: seq<EnvironmentVariable>) {
    forall i, j :: 0 <= i < j < |value| ==> value[i].name != value[j].name
  }

  predicate All<T(==)>(value: seq<T>, acceptable: T -> bool) {
    forall v :: v in value ==> acceptable(v)
  }

  lemma DistinctAndSortedIffIncreasing(value: seq<EnvironmentVariable>)
    ensures DistinctNames(value) && SortBy(value, ByName) == value <==> StrictlyIncreasing(value, ByName)
  {
    ByNameIsStrictWeak();
    SortedCopyIffNondecreasing(value, ByName);
    forall i, j | 0 <= i < j < |value|
      ensures ByName(value[i], value[j]) <==> value[i].name != value[j].name && !ByName(value[j], value[i])
    {
      LexTrichotomy(value[i].name, value[j].name);
    }
  }

  lemma OneMoreName(value: seq<EnvironmentVariable>, i: nat)
    requires i < |value|
    ensures Names(value[..i + 1]) == Names(value[..i]) + {value[i].name}
    ensures DistinctNames(value[..i + 1]) <==> DistinctNames(value[..i]) && value[i].name !in Names(value[..i])
  {
    var front := value[..i];
    assert value[..i + 1] == front + [value[i]];
    if value[i].name in Names(front) {
      var v :| v in front && v.name == value[i].name;
      var k :| 0 <= k < i && front[k] == v;
      assert value[..i + 1][k].name == value[..i + 1][i].name;
    } else {
      assert forall k :: 0 <= k < i ==> front[k] in front && front[k].name in Names(front);
    }
    if DistinctNames(value[..i + 1]) {
      assert forall k :: 0 <= k < i ==> front[k] == value[..i + 1][k];
    }
  }

  lemma OneMoreOf<T>(value: seq<T>, i: nat, acceptable: T -> bool)
    requires i < |value|
    ensures All(value[..i + 1], acceptable) <==> All(value[..i], acceptable) && acceptable(value[i])
    ensures All(value, acceptable) ==> All(value[..i + 1], acceptable)
  {
    assert value[..i + 1] == value[..i] + [value[i]];
    assert value[i] in value[..i + 1];
  }

  /** `acceptable` stands for the checks on one item alone. */
  method ValidatePublicEnvironment(value: seq<EnvironmentVariable>, acceptable: EnvironmentVariable -> bool)
    returns (r: Result<set<string>, ListError>)
    ensures r.Ok? <==> |value| <= 100 && All(value, acceptable) && StrictlyIncreasing(value, ByName)
    ensures r.Ok? ==> r.value == Names(value)
  {
    DistinctAndSortedIffIncreasing(value);
    if |value| > MAX_LIST_ITEMS {
      return Err(Invalid);
    }
    var names: set<string> := {};
    var i := 0;
    while i < |value|
      invariant 0 <= i <= |value|
      invariant names == Names(value[..i])
      invariant All(value[..i], acceptable)
      invariant DistinctNames(value[..i])
    {
      var item := value[i];
      OneMoreName(value, i);
      OneMoreOf(value, i, acceptable);
      if !acceptable(item) {
        return Err(Invalid);
      }
      if item.name in names {
        return Err(Duplicate(item.name));
      }
      names := names + {item.name};
      i := i + 1;
    }
    assert value[..i] == value;
    if SortBy(value, ByName) != value {
      return Err(NotNormalized);
    }
    return Ok(names);
  }

  // ----- Secret bindings

  predicate KnownExposure(exposure: string) { exposure in {"setup", "runtime", "test"} }

  lemma ExposuresAreThree(exposure: string)
    ensures KnownExposure(exposure) <==> exposure == "setup" || exposure == "runtime" || exposure == "test"
  {
  }

  /** The order of the tuples (envName, exposure, secretVersion). */
  predicate ByBinding(a: SecretBinding, b: SecretBinding) {
    ByPhase(a, b) || (a.envName == b.envName && a.exposure == b.exposure && a.secretVersion < b.secretVersion)
  }

  predicate ByPhase(a: SecretBinding, b: SecretBinding) {
    LexLess(a.envName, b.envName) || (a.envName == b.envName && LexLess(a.exposure, b.exposure))
  }

  predicate SamePhase(a: SecretBinding, b: SecretBinding) {
    a.envName == b.envName && a.exposure == b.exposure
  }

  function PhaseName(b: SecretBinding): string { b.exposure + ":" + b.envName }

  lemma PhaseTrichotomy(a: SecretBinding, b: SecretBinding)
    ensures ByPhase(a, b) || SamePhase(a, b) || ByPhase(b, a)
    ensures !(ByPhase(a, b) && ByPhase(b, a)) && !(ByPhase(a, b) && SamePhase(a, b))
  {
    LexTrichotomy(a.envName, b.envName);
    LexTrichotomy(a.exposure, b.exposure);
  }

  lemma PhaseTransitive(a: SecretBinding, b: SecretBinding, c: SecretBinding)
    requires ByPhase(a, b) && ByPhase(b, c)
    ensures ByPhase(a, c)
  {
    LexIsStrictWeak();
  }

  lemma BindingOrdersAreStrictWeak()
    ensures StrictWeak(ByPhase) && StrictWeak(ByBinding)
  {
    forall a, b, c: SecretBinding ensures ByPhase(a, b) && ByPhase(b, c) ==> ByPhase(a, c) {
      if ByPhase(a, b) && ByPhase(b, c) {
        PhaseTransitive(a, b, c);
      }
    }
    forall a, b: SecretBinding ensures !ByPhase(a, a) && (ByPhase(a, b) || SamePhase(a, b) || ByPhase(b, a)) {
      PhaseTrichotomy(a, b);
      PhaseTrichotomy(a, a);
    }
    assert StrictWeak(ByPhase);
    assert StrictWeak(ByBinding);
  }

  ghost predicate DistinctPhases(value: seq<SecretBinding>) {
    forall i, j :: 0 <= i < j < |value| ==> !SamePhase(value[i], value[j])
  }

  lemma DistinctPhasesAndSortedIffIncreasing(value: seq<SecretBinding>)
    ensures DistinctPhases(value) && SortBy(value, ByBinding) == value <==> StrictlyIncreasing(value, ByPhase)
  {
    BindingOrdersAreStrictWeak();
    SortedCopyIffNondecreasing(value, ByBinding);
    forall i, j | 0 <= i < j < |value|
      ensures ByPhase(value[i], value[j]) <==> !SamePhase(value[i], value[j]) && !ByBinding(value[j], value[i])
    {
      PhaseTrichotomy(value[i], value[j]);
    }
  }

  /** An exposure holds no colon, so the phase name tells both parts. */
  lemma PhaseNamesAreFaithful(a: SecretBinding, b: SecretBinding)
    requires KnownExposure(a.exposure) && KnownExposure(b.exposure)
    ensures PhaseName(a) == PhaseName(b) <==> SamePhase(a, b)
  {
    if PhaseName(a) == PhaseName(b) {
      var n, m := |a.exposure|, |b.exposure|;
      assert PhaseName(a)[n] == ':' && PhaseName(b)[m] == ':';
      assert PhaseName(a)[..n] == a.exposure && PhaseName(b)[..m] == b.exposure;
      assert ':' !in a.exposure && ':' !in b.exposure;
      assert n == m;
      assert PhaseName(a)[n + 1..] == a.envName && PhaseName(b)[m + 1..] == b.envName;
    }
  }

  function PhaseNames(value: seq<SecretBinding>): set<string> { set b | b in value :: PhaseName(b) }

  lemma OneMorePhase(value: seq<SecretBinding>, i: nat)
    requires i < |value| && forall k :: 0 <= k <= i ==> KnownExposure(value[k].exposure)
    ensures PhaseNames(value[..i + 1]) == PhaseNames(value[..i]) + {PhaseName(value[i])}
    ensures DistinctPhases(value[..i + 1]) <==> DistinctPhases(value[..i]) && PhaseName(value[i]) !in PhaseNames(value[..i])
  {
    var front := value[..i];
    assert value[..i + 1] == front + [value[i]];
    forall k | 0 <= k < i ensures PhaseName(front[k]) == PhaseName(value[i]) <==> SamePhase(front[k], value[i]) {
      PhaseNamesAreFaithful(front[k], value[i]);
    }
    if PhaseName(value[i]) in PhaseNames(front) {
      var b :| b in front && PhaseName(b) == PhaseName(value[i]);
      var k :| 0 <= k < i && front[k] == b;
      assert SamePhase(value[..i + 1][k], value[..i + 1][i]);
    } else {
      assert forall k :: 0 <= k < i ==> front[k] in front && PhaseName(front[k]) in PhaseNames(front);
    }
    if DistinctPhases(value[..i + 1]) {
      assert forall k :: 0 <= k < i ==> front[k] == value[..i + 1][k];
    }
  }

  lemma RepeatedPhaseStays(value: seq<SecretBinding>, i: nat)
    requires i <= |value| && !DistinctPhases(value[..i])
    ensures !DistinctPhases(value)
  {
  }

  method ValidateSecretBindings(value: seq<SecretBinding>, publicNames: set<string>, acceptable: SecretBinding -> bool)
    returns (r: Result<seq<SecretBinding>, ListError>)
    ensures r.Ok? <==>
      && |value| <= 100
      && All(value, (b: SecretBinding) => acceptable(b) && KnownExposure(b.exposure) && b.envName !in publicNames)
      && StrictlyIncreasing(value, ByPhase)
    ensures r.Ok? ==> r.value == value
    ensures r == Err(NotNormalized) ==> DistinctPhases(value)
    ensures r.Err? && r.error.Duplicate? ==> !DistinctPhases(value)
  {
    var single := (b: SecretBinding) => acceptable(b) && KnownExposure(b.exposure) && b.envName !in publicNames;
    DistinctPhasesAndSortedIffIncreasing(value);
    if |value| > MAX_LIST_ITEMS {
      return Err(Invalid);
    }
    var phaseNames: set<string> := {};
    var i := 0;
    while i < |value|
      invariant 0 <= i <= |value|
      invariant phaseNames == PhaseNames(value[..i])
      invariant All(value[..i], single)
      invariant DistinctPhases(value[..i])
    {
      var item := value[i];
      OneMoreOf(value, i, single);
      if !acceptable(item) || !KnownExposure(item.exposure) {
        return Err(Invalid);
      }
      if item.envName in publicNames {
        return Err(PublicAndSecret(item.envName));
      }
      assert forall k :: 0 <= k < i ==> value[k] == value[..i][k] && value[..i][k] in value[..i];
      OneMorePhase(value, i);
      if PhaseName(item) in phaseNames {
        RepeatedPhaseStays(value, i + 1);
        return Err(Duplicate(item.envName));
      }
      phaseNames := phaseNames + {PhaseName(item)};
      i := i + 1;
    }
    assert value[..i] == value;
    if SortBy(value, ByBinding) != value {
      return Err(NotNormalized);
    }
    return Ok(value);
  }

  // ----- Permitted paths

  /** The elements of a set in some order: here, that of their first occurrences. */
  function Distinct(s: seq<string>): seq<string> {
    if s == [] then []
    else
      var rest := Distinct(s[..|s| - 1]);
      if s[|s| - 1] in s[..|s| - 1] then rest else rest + [s[|s| - 1]]
  }

  lemma {:induction false} DistinctFacts(s: seq<string>)
    ensures forall x :: x in Distinct(s) <==> x in s
    ensures forall i, j :: 0 <= i < j < |Distinct(s)| ==> Distinct(s)[i] != Distinct(s)[j]
    ensures (forall i, j :: 0 <= i < j < |s| ==> s[i] != s[j]) ==> Distinct(s) == s
  {
    if s != [] {
      var front, last := s[..|s| - 1], s[|s| - 1];
      DistinctFacts(front);
      assert s == front + [last];
      assert forall x :: x in s <==> x in front || x == last;
      if last in front {
        var k :| 0 <= k < |front| && front[k] == last;
        assert s[k] == s[|s| - 1];
      }
    }
  }

  lemma NondecreasingWithoutRepeats(paths: seq<string>)
    requires Nondecreasing(paths, LexLess) && forall x :: multiset(paths)[x] <= 1
    ensures StrictlyIncreasing(paths, LexLess)
  {
    forall i, j | 0 <= i < j < |paths| ensures LexLess(paths[i], paths[j]) {
      LexTrichotomy(paths[i], paths[j]);
      if paths[i] == paths[j] {
        TwiceInMultiset(paths, i, j);
      }
    }
  }

  lemma IncreasingHasNoRepeats(paths: seq<string>)
    requires StrictlyIncreasing(paths, LexLess)
    ensures Nondecreasing(paths, LexLess) && forall i, j :: 0 <= i < j < |paths| ==> paths[i] != paths[j]
  {
    forall i, j | 0 <= i < j < |paths| ensures !LexLess(paths[j], paths[i]) && paths[i] != paths[j] {
      LexTrichotomy(paths[i], paths[j]);
    }
  }

  /** A path list that equals the sorted list of its distinct paths is strictly increasing. */
  lemma CanonicalPathsIffIncreasing(paths: seq<string>)
    ensures paths == SortBy(Distinct(paths), LexLess) <==> StrictlyIncreasing(paths, LexLess)
  {
    LexIsStrictWeak();
    DistinctFacts(paths);
    var d := Distinct(paths);
    SortBySorts(d, LexLess);
    if StrictlyIncreasing(paths, LexLess) {
      IncreasingHasNoRepeats(paths);
      SortedCopyIffNondecreasing(paths, LexLess);
    } else if paths == SortBy(d, LexLess) {
      forall x ensures multiset(paths)[x] <= 1 {
        DistinctMultiplicity(d, x);
      }
      NondecreasingWithoutRepeats(paths);
    }
  }

  lemma TwiceInMultiset(s: seq<string>, i: nat, j: nat)
    requires i < j < |s| && s[i] == s[j]
    ensures multiset(s)[s[i]] >= 2
  {
    assert s == s[..j] + [s[j]] + s[j + 1..];
    assert s[..j][i] == s[i] && s[i] in s[..j];
  }

  lemma {:induction false} DistinctMultiplicity(s: seq<string>, x: string)
    requires forall i, j :: 0 <= i < j < |s| ==> s[i] != s[j]
    ensures multiset(s)[x] <= 1
  {
    if s != [] {
      DistinctMultiplicity(s[1..], x);
      assert s == [s[0]] + s[1..];
      assert s[0] !in s[1..];
    }
  }

  // ----- One accepted spelling

  lemma AcceptedEnvironmentsAreUnique(a: seq<EnvironmentVariable>, b: seq<EnvironmentVariable>)
    requires StrictlyIncreasing(a, ByName) && StrictlyIncreasing(b, ByName)
    requires forall v :: v in a <==> v in b
    ensures a == b
  {
    ByNameIsStrictWeak();
    IncreasingListsAgree(a, b, ByName);
  }

  lemma AcceptedBindingsAreUnique(a: seq<SecretBinding>, b: seq<SecretBinding>)
    requires StrictlyIncreasing(a, ByPhase) && StrictlyIncreasing(b, ByPhase)
    requires forall v :: v in a <==> v in b
    ensures a == b
  {
    BindingOrdersAreStrictWeak();
    IncreasingListsAgree(a, b, ByPhase);
  }

  lemma AcceptedPathsAreUnique(a: seq<string>, b: seq<string>)
    requires a == SortBy(Distinct(a), LexLess) && b == SortBy(Distinct(b), LexLess)
    requires forall v :: v in a <==> v in b
    ensures a == b
  {
    LexIsStrictWeak();
    CanonicalPathsIffIncreasing(a);
    CanonicalPathsIffIncreasing(b);
    IncreasingListsAgree(a, b, LexLess);
  }

  predicate Named(environment: seq<EnvironmentVariable>, name: string) {
    exists v :: v in environment && v.name == name
  }

  /** What the two validators together accept: both lists in their one spelling, every item acceptable by
      itself, and no name both public and secret. */
  ghost predicate EnvironmentAccepted(environment: seq<EnvironmentVariable>, bindings: seq<SecretBinding>,
                                      acceptableVariable: EnvironmentVariable -> bool,
                                      acceptableBinding: SecretBinding -> bool) {
    && |environment| <= 100 && |bindings| <= 100
    && StrictlyIncreasing(environment, ByName) && StrictlyIncreasing(bindings, ByPhase)
    && (forall v :: v in environment ==> acceptableVariable(v))
    && (forall b :: b in bindings ==> acceptableBinding(b) && KnownExposure(b.exposure))
    && (forall b :: b in bindings ==> !Named(environment, b.envName))
  }

  method ValidateEnvironment(environment: seq<EnvironmentVariable>, bindings: seq<SecretBinding>,
                             acceptableVariable: EnvironmentVariable -> bool, acceptableBinding: SecretBinding -> bool)
    returns (ok: bool)
    ensures ok <==> EnvironmentAccepted(environment, bindings, acceptableVariable, acceptableBinding)
  {
    var names := ValidatePublicEnvironment(environment, acceptableVariable);
    if names.Err? {
      return false;
    }
    assert forall name :: name in names.value <==> Named(environment, name);
    var accepted := ValidateSecretBindings(bindings, names.value, acceptableBinding);
    return accepted.Ok?;
  }
}
