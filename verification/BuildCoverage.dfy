/**
 The builder side of Cargo.nix (`builtRustCratesWithFeatures`, `dependencyDerivations`)
 follows dependencies with the merged features. Both sides filter dependencies on their own,
 with targets that differ in the attribute `test`.
 */
module BuildCoverage {
  import opened Names
  import opened Crates
  import opened Resolver
  import opened Fixpoint

  // The arguments of `builtRustCratesWithFeatures`; `target` is `makeTarget stdenv.hostPlatform`.
  datatype Build = Build(
    crates: map<string, Crate>, packageId: string, features: seq<string>, target: Target, runTests: bool)
  {
    // `target // { test = runTests; }`
    function MergeTarget(): Target {
      target.(test := runTests)
    }

    function MergeEnv(): Env {
      Env(crates, MergeTarget(), runTests, packageId)
    }

    function MergedFeatures(): Resolution {
      MergePackageFeatures(MergeEnv(), features)
    }
  }

  function PackageIds(deps: seq<Dependency>): seq<string> {
    if deps == [] then [] else [deps[0].packageId] + PackageIds(deps[1..])
  }

  // `dependencyDerivations`, with a derivation named by its crate.
  function DependencyDerivations(deps: seq<Dependency>, features: seq<string>, target: Target): seq<string> {
    PackageIds(FilterEnabled(deps, features, target))
  }

  // The crates the derivation of `id` refers to. `mergedFeatures."${packageId}" or [ ]` is
  // the lookup whose fallback coverage rules out.
  function Derivations(b: Build, merged: Cache, id: string): seq<string>
    requires id in b.crates
  {
    var features := CachedFeatures(merged, id);
    DependencyDerivations(RuntimeDependencies(b.MergeEnv(), id), features, b.target)
    + DependencyDerivations(b.crates[id].buildDependencies, features, b.target)
  }

  // A path the builder follows from the root.
  ghost predicate BuilderPath(b: Build, merged: Cache, p: seq<string>) {
    && p != [] && p[0] == b.packageId
    && forall i | 0 <= i < |p| - 1 :: p[i] in b.crates && p[i + 1] in Derivations(b, merged, p[i])
  }

  lemma {:induction false} DerivationMembers(deps: seq<Dependency>, features: seq<string>, target: Target, id: string)
    ensures id in DependencyDerivations(deps, features, target) <==>
            exists d :: d in deps && DependencyEnabled(d, features, target) && d.packageId == id
  {
    if deps != [] {
      DerivationMembers(deps[1..], features, target, id);
      var rest := FilterEnabled(deps[1..], features, target);
      assert deps[0] in deps && deps == [deps[0]] + deps[1..];
      if DependencyEnabled(deps[0], features, target) {
        assert FilterEnabled(deps, features, target) == [deps[0]] + rest;
        assert ([deps[0]] + rest)[1..] == rest;
      } else {
        assert FilterEnabled(deps, features, target) == rest;
      }
      if d :| d in deps && DependencyEnabled(d, features, target) && d.packageId == id {
        assert d == deps[0] || d in deps[1..];
      }
    }
  }

  // Whenever the builder follows the dependency, on a list of features as they are cached, the
  // resolver's target admitted it too.
  ghost predicate Agrees(d: Dependency, target: Target, runTests: bool) {
    forall features | StrictlySorted(features) && DependencyEnabled(d, features, target) ::
      TargetHolds(d, target.(test := runTests), features)
  }

  ghost predicate DependsOn(b: Build, id: string, d: Dependency)
    requires id in b.crates
  {
    d in RuntimeDependencies(b.MergeEnv(), id) || d in b.crates[id].buildDependencies
  }

  ghost predicate AllTargetsAgree(b: Build) {
    forall id, d | id in b.crates && DependsOn(b, id, d) :: Agrees(d, b.target, b.runTests)
  }

  // What the fixpoint theorem says of a result, for the crates the builder reads it for.
  ghost predicate IsFixpoint(b: Build, merged: Cache) {
    forall id | id in merged :: ClosedAt(b.MergeEnv(), merged, id) && StrictlySorted(merged[id])
  }

  lemma DependencyCovered(b: Build, merged: Cache, id: string, d: Dependency)
    requires AllTargetsAgree(b) && IsFixpoint(b, merged)
    requires id in merged && id in b.crates
    requires d in RuntimeDependencies(b.MergeEnv(), id) || d in b.crates[id].buildDependencies
    requires DependencyEnabled(d, merged[id], b.target)
    ensures Satisfied(merged, Request(d.packageId, DependencyFeatures(merged[id], d)))
  {
    var env := b.MergeEnv();
    var q := Request(d.packageId, DependencyFeatures(merged[id], d));
    assert ClosedAt(env, merged, id) && DependsOn(b, id, d);
    assert TargetHolds(d, env.target, merged[id]);
    assert Makes(d, merged[id], env.target, q);
    RequestMembers(RuntimeDependencies(env, id), merged[id], env.target, q);
    RequestMembers(env.crates[id].buildDependencies, merged[id], env.target, q);
    assert Satisfied(merged, q);
  }

  lemma EdgeCovered(b: Build, merged: Cache, id: string, next: string)
    requires AllTargetsAgree(b) && IsFixpoint(b, merged)
    requires id in merged && id in b.crates && next in Derivations(b, merged, id)
    ensures next in merged
  {
    var runtime := RuntimeDependencies(b.MergeEnv(), id);
    DerivationMembers(runtime, merged[id], b.target, next);
    DerivationMembers(b.crates[id].buildDependencies, merged[id], b.target, next);
    var d :| (d in runtime || d in b.crates[id].buildDependencies)
             && DependencyEnabled(d, merged[id], b.target) && d.packageId == next;
    DependencyCovered(b, merged, id, d);
  }

  lemma {:induction false} FixpointCoversPath(b: Build, merged: Cache, p: seq<string>)
    requires AllTargetsAgree(b) && IsFixpoint(b, merged)
    requires b.packageId in merged && BuilderPath(b, merged, p)
    ensures p[|p| - 1] in merged
    decreases |p|
  {
    if |p| > 1 {
      var q := p[..|p| - 1];
      assert BuilderPath(b, merged, q);
      FixpointCoversPath(b, merged, q);
      assert p[|p| - 2 + 1] in Derivations(b, merged, p[|p| - 2]);
      EdgeCovered(b, merged, p[|p| - 2], p[|p| - 1]);
    }
  }

  // Every crate the builder reaches, along a path of any length, has a merged entry, and
  // every dependency it follows from there gets the features its dependent asks for.
  lemma PathCovered(b: Build, merged: Cache, p: seq<string>)
    requires AllTargetsAgree(b) && b.MergedFeatures() == Merged(merged)
    requires BuilderPath(b, merged, p)
    ensures p[|p| - 1] in merged && p[|p| - 1] in b.crates
    ensures forall d | (d in RuntimeDependencies(b.MergeEnv(), p[|p| - 1]) || d in b.crates[p[|p| - 1]].buildDependencies)
                       && DependencyEnabled(d, merged[p[|p| - 1]], b.target) ::
              d.packageId in merged && Elems(DependencyFeatures(merged[p[|p| - 1]], d)) <= Elems(merged[d.packageId])
  {
    MergedIsFixpoint(b, merged);
    FixpointCoversPath(b, merged, p);
    var id := p[|p| - 1];
    assert ClosedAt(b.MergeEnv(), merged, id);
    forall d | (d in RuntimeDependencies(b.MergeEnv(), id) || d in b.crates[id].buildDependencies)
               && DependencyEnabled(d, merged[id], b.target)
      ensures d.packageId in merged && Elems(DependencyFeatures(merged[id], d)) <= Elems(merged[d.packageId])
    {
      DependencyCovered(b, merged, id, d);
    }
  }

  lemma MergedIsFixpoint(b: Build, merged: Cache)
    requires b.MergedFeatures() == Merged(merged)
    ensures IsFixpoint(b, merged) && b.packageId in merged
  {
    ResolutionIsFixpoint(b.MergeEnv(), b.features);
  }

  // Without tests the two targets are one, as the default target has `test = false`.
  lemma TargetsAgreeWithoutTests(b: Build)
    requires b.target.test == b.runTests
    ensures AllTargetsAgree(b)
  {
    assert b.MergeTarget() == b.target;
  }

  // ---- When the targets differ ----

  function EmptyCrate(): Crate {
    Crate(map[], [], [], [])
  }

  // The smallest build with this dependency, which here can be optional without adding its
  // name to the features.
  function SmallestBuild(root: string, d: Dependency, features: seq<string>, target: Target, runTests: bool): Build {
    Build(map[root := EmptyCrate().(buildDependencies := [d]), d.packageId := EmptyCrate()],
          root, features, target, runTests)
  }

  // With no feature map and no optional dependency, a crate gets what it is asked for.
  lemma PlainStep(crate: Crate, features: seq<string>)
    requires crate.featureMap == map[] && forall d | d in crate.dependencies :: !d.optional
    ensures Step(crate, features) == SortedUnique(features)
  {
    StepKeeps(crate, features);
    Expansion.ExpandLeast(crate.featureMap, features, Elems(features));
    var expanded := Expansion.ExpandFeatures(crate.featureMap, features);
    forall f | f in Step(crate, features)
      ensures f in features
    {
      EnableExact(crate.dependencies, expanded, f);
      assert f in Elems(expanded);
    }
    assert Elems(Step(crate, features)) == Elems(features);
    SortedCanonical(Step(crate, features), SortedUnique(features));
  }

  // The two-crate configuration as the resolver sees it.
  ghost predicate IsSmallest(env: Env, root: string, d: Dependency) {
    && d.packageId != root && env.rootPackageId == root
    && root in env.crates && env.crates[root] == EmptyCrate().(buildDependencies := [d])
    && d.packageId in env.crates && env.crates[d.packageId] == EmptyCrate()
  }

  lemma RequestsOfOne(d: Dependency, features: seq<string>, target: Target)
    requires DependencyEnabled(d, features, target)
    ensures EnabledRequests([d], features, target) == [Request(d.packageId, DependencyFeatures(features, d))]
  {
    assert FilterEnabled([d], features, target) == [d];
    assert RequestsOf([d][1..], features) == [];
  }

  lemma SmallestRequests(env: Env, root: string, d: Dependency, features: seq<string>)
    requires IsSmallest(env, root, d)
    ensures var enabled := SortedUnique(features);
            && Step(env.crates[root], features) == enabled
            && RuntimeRequests(env, root, enabled) == []
            && BuildRequests(env, root, enabled)
               == if DependencyEnabled(d, enabled, env.target) then [Request(d.packageId, DependencyFeatures(enabled, d))] else []
  {
    var enabled := SortedUnique(features);
    PlainStep(env.crates[root], features);
    assert RuntimeDependencies(env, root) == [];
    if DependencyEnabled(d, enabled, env.target) {
      RequestsOfOne(d, enabled, env.target);
    } else {
      assert FilterEnabled([d], enabled, env.target) == [];
    }
  }

  lemma RejectedIsNotMerged(env: Env, universe: set<string>, root: string, d: Dependency, features: seq<string>)
    requires IsSmallest(env, root, d) && IsUniverse(env, universe) && Elems(features) <= universe
    requires !DependencyEnabled(d, SortedUnique(features), env.target)
    ensures Merge(env, universe, root, features, map[]) == Merged(map[root := SortedUnique(features)])
  {
    SmallestRequests(env, root, d, features);
    MergeOfLeaf(env, universe, root, features, map[]);
  }

  lemma AcceptedIsMerged(env: Env, universe: set<string>, root: string, d: Dependency, features: seq<string>)
    requires IsSmallest(env, root, d) && IsUniverse(env, universe) && Elems(features) <= universe
    requires DependencyEnabled(d, SortedUnique(features), env.target)
    ensures var r := Merge(env, universe, root, features, map[]);
            r.Merged? && d.packageId in r.cache
  {
    var q := Request(d.packageId, DependencyFeatures(SortedUnique(features), d));
    SmallestRequests(env, root, d, features);
    var empty: Cache := map[];
    MergeOfOne(env, universe, root, features, empty, q);
    EmptyCrateVisited(env, universe, empty[root := Step(env.crates[root], features)], q);
  }

  lemma EmptyCrateVisited(env: Env, universe: set<string>, cache: Cache, q: Request)
    requires IsUniverse(env, universe) && IsCache(cache, universe) && Elems(q.features) <= universe
    requires q.packageId != env.rootPackageId && q.packageId !in cache
    requires q.packageId in env.crates && env.crates[q.packageId] == EmptyCrate()
    ensures Visit(env, universe, cache, q)
         == Merged(cache[q.packageId := Step(EmptyCrate(), Combined(cache, q))])
  {
    assert RuntimeDependencies(env, q.packageId) == [];
    MergeOfLeaf(env, universe, q.packageId, Combined(cache, q), cache);
  }

  // There, the builder follows the dependency without a merged entry exactly when it is
  // enabled for the builder's target and its predicate fails for the resolver's.
  lemma MissedIffTargetsDiffer(b: Build, root: string, d: Dependency, features: seq<string>, target: Target, runTests: bool)
    requires d.packageId != root && b == SmallestBuild(root, d, features, target, runTests)
    ensures b.MergedFeatures().Merged?
    ensures var merged, enabled := b.MergedFeatures().cache, SortedUnique(features);
            (d.packageId in Derivations(b, merged, root) && d.packageId !in merged) <==>
            (DependencyEnabled(d, enabled, b.target) && !TargetHolds(d, b.MergeTarget(), enabled))
  {
    var env := b.MergeEnv();
    var universe := Universe(env, features);
    UniverseExists(env, features);
    if DependencyEnabled(d, SortedUnique(features), env.target) {
      AcceptedIsMerged(env, universe, root, d, features);
    } else {
      RejectedIsNotMerged(env, universe, root, d, features);
      FollowedIffEnabled(b, root, d, SortedUnique(features));
    }
  }

  lemma FollowedIffEnabled(b: Build, root: string, d: Dependency, enabled: seq<string>)
    requires root in b.crates && b.crates[root] == EmptyCrate().(buildDependencies := [d])
    ensures d.packageId in Derivations(b, map[root := enabled], root) <==> DependencyEnabled(d, enabled, b.target)
  {
    assert RuntimeDependencies(b.MergeEnv(), root) == [];
    DerivationMembers([d], enabled, b.target, d.packageId);
    DerivationMembers([], enabled, b.target, d.packageId);
  }

  // ---- Every build ----

  // The builder never falls back to the empty list of features.
  ghost predicate NeverFallsBack(b: Build, merged: Cache) {
    forall p | BuilderPath(b, merged, p) :: p[|p| - 1] in merged
  }

  // A build in which every dependency but `d` agrees.
  ghost predicate OthersAgree(b: Build, d: Dependency) {
    forall id, e | id in b.crates && DependsOn(b, id, e) && e != d :: Agrees(e, b.target, b.runTests)
  }

  // `d` makes no such build fall back.
  ghost predicate Harmless(d: Dependency, target: Target, runTests: bool) {
    forall b: Build, merged: Cache {:trigger NeverFallsBack(b, merged)}
      | b.target == target && b.runTests == runTests && OthersAgree(b, d) && b.MergedFeatures() == Merged(merged) ::
      NeverFallsBack(b, merged)
  }

  lemma AgreeingIsHarmless(d: Dependency, target: Target, runTests: bool)
    requires Agrees(d, target, runTests)
    ensures Harmless(d, target, runTests)
  {
    forall b: Build, merged: Cache | b.target == target && b.runTests == runTests && OthersAgree(b, d)
                       && b.MergedFeatures() == Merged(merged)
      ensures NeverFallsBack(b, merged)
    {
      assert AllTargetsAgree(b);
      forall p | BuilderPath(b, merged, p)
        ensures p[|p| - 1] in merged
      {
        PathCovered(b, merged, p);
      }
    }
  }

  lemma DisagreeingFallsBack(d: Dependency, features: seq<string>, target: Target, runTests: bool)
    requires StrictlySorted(features) && DependencyEnabled(d, features, target)
    requires !TargetHolds(d, target.(test := runTests), features)
    ensures !Harmless(d, target, runTests)
  {
    var root := d.packageId + "+";
    assert |root| > |d.packageId|;
    var b := SmallestBuild(root, d, features, target, runTests);
    MissedIffTargetsDiffer(b, root, d, features, target, runTests);
    SortedCanonical(SortedUnique(features), features);
    var merged := b.MergedFeatures().cache;
    var p := [root, d.packageId];
    assert BuilderPath(b, merged, p) && p[|p| - 1] !in merged;
    assert !NeverFallsBack(b, merged);
    OnlyDependency(b, root, d, features);
  }

  lemma OnlyDependency(b: Build, root: string, d: Dependency, features: seq<string>)
    requires d.packageId != root && b == SmallestBuild(root, d, features, b.target, b.runTests)
    ensures OthersAgree(b, d)
  {
    forall id, e | id in b.crates && DependsOn(b, id, e)
      ensures e == d
    {
      assert RuntimeDependencies(b.MergeEnv(), id) == [];
    }
  }

  // No build whose other dependencies agree ever falls back exactly when this one agrees. So
  // the hypothesis of `PathCovered` cannot be dropped for any dependency.
  lemma HarmlessIffAgrees(d: Dependency, target: Target, runTests: bool)
    ensures Harmless(d, target, runTests) <==> Agrees(d, target, runTests)
  {
    if Agrees(d, target, runTests) {
      AgreeingIsHarmless(d, target, runTests);
    } else {
      var features :| StrictlySorted(features) && DependencyEnabled(d, features, target)
                      && !TargetHolds(d, target.(test := runTests), features);
      DisagreeingFallsBack(d, features, target, runTests);
    }
  }
}
