/**
 What a resolution means, in terms of the crate table alone: which dependencies are enabled,
 which features each is asked for, and what a crate's own features are. The functions of the
 resolver and the builder are proved to agree with these definitions, and the main theorems are
 restated in them.
 */
module ResolutionMeaning {
  import opened Common
  import opened Names
  import opened Expansion
  import opened Crates
  import opened Resolver
  import opened Fixpoint
  import opened LeastSolution
  import opened BuildCoverage

  // ---- Dependencies ----

  // A dependency goes by its rename, if it has one.
  ghost predicate GoesBy(d: Dependency, name: string) {
    name == if d.rename.Some? then d.rename.value else d.name
  }

  // The three forms in which a feature can name a dependency.
  ghost predicate NamedAs(name: string, feature: string) {
    || feature == name
    || feature == "dep:" + name
    || exists rest :: feature == name + "/" + rest
  }

  lemma FeatureEnablesIff(d: Dependency, name: string, feature: string)
    requires GoesBy(d, name)
    ensures FeatureEnables(d, feature) <==> NamedAs(name, feature)
  {
    if HasPrefix(name + "/", feature) {
      assert feature == name + "/" + feature[|name| + 1..];
    }
    if rest :| feature == name + "/" + rest {
      assert feature[..|name| + 1] == name + "/";
    }
  }

  ghost predicate Enabled(d: Dependency, features: seq<string>, target: Target) {
    && (d.target.Some? ==> d.target.value(target, features))
    && (d.optional ==> exists name, f :: GoesBy(d, name) && f in features && NamedAs(name, f))
  }

  lemma EnabledIff(d: Dependency, features: seq<string>, target: Target)
    ensures DependencyEnabled(d, features, target) <==> Enabled(d, features, target)
  {
    AnyEnablesExact(d, features);
    assert GoesBy(d, DepName(d));
    forall f
      ensures FeatureEnables(d, f) <==> NamedAs(DepName(d), f)
    {
      FeatureEnablesIff(d, DepName(d), f);
    }
  }

  // That the dependency is asked for the feature `g`: by default, explicitly, or because a
  // feature of the dependent forwards it, in the strong or the weak form.
  ghost predicate AskedFor(d: Dependency, features: seq<string>, g: string) {
    || (d.usesDefaultFeatures && g == "default")
    || g in d.features
    || exists name :: GoesBy(d, name) && (name + "/" + g in features || name + "?/" + g in features)
  }

  lemma ForwardedIff(name: string, f: string, g: string)
    ensures ForwardedFeature(name, f) == Some(g) ==> f == name + "/" + g || f == name + "?/" + g
    ensures f == name + "/" + g || f == name + "?/" + g ==> ForwardedFeature(name, f) == Some(g)
  {
    var strong, weak := name + "/", name + "?/";
    if HasPrefix(strong, f) { assert f == strong + f[|name| + 1..]; }
    if HasPrefix(weak, f) { assert f == weak + f[|name| + 2..]; }
    if f == strong + g {
      assert f[..|name| + 1] == strong && f[|name| + 1..] == g;
    }
    if f == weak + g {
      assert f[..|name| + 2] == weak && f[|name| + 2..] == g;
      assert f[..|name| + 1][|name|] == '?' && strong[|name|] == '/';
    }
  }

  // `dependencyFeatures`, feature by feature.
  lemma DependencyFeaturesIff(d: Dependency, features: seq<string>, g: string)
    ensures g in DependencyFeatures(features, d) <==> AskedFor(d, features, g)
  {
    var name := DepName(d);
    assert GoesBy(d, name);
    ForwardedExact(name, features, g);
    forall f
      ensures ForwardedFeature(name, f) == Some(g) <==> f == name + "/" + g || f == name + "?/" + g
    {
      ForwardedIff(name, f, g);
    }
  }

  // ---- The features of a crate ----

  lemma EnablesIff(m: FeatureMap, feature: string, f: string)
    ensures f in Enables(m, feature) <==> feature in m && f in m[feature]
  {
  }

  // A feature is there if the feature map leads to it, or if it is the name of an optional
  // dependency that such a feature names.
  ghost predicate HasFeature(crate: Crate, features: set<string>, f: string) {
    || Reachable(crate.featureMap, features, f)
    || exists d: Dependency, e :: d in crate.dependencies && d.optional && GoesBy(d, f)
                      && Reachable(crate.featureMap, features, e) && NamedAs(f, e)
  }

  lemma StepIff(crate: Crate, features: seq<string>, f: string)
    ensures f in Step(crate, features) <==> HasFeature(crate, Elems(features), f)
  {
    var m := crate.featureMap;
    var expanded := ExpandFeatures(m, features);
    forall e
      ensures e in expanded <==> Reachable(m, Elems(features), e)
    {
      ExpandExact(m, features, e);
    }
    EnableExact(crate.dependencies, expanded, f);
    forall d: Dependency
      ensures NamedBy(d, expanded, f) <==> d.optional && GoesBy(d, f) && exists e :: e in expanded && NamedAs(f, e)
    {
      AnyEnablesExact(d, expanded);
      if GoesBy(d, f) {
        forall e
          ensures FeatureEnables(d, e) <==> NamedAs(f, e)
        {
          FeatureEnablesIff(d, f, e);
        }
      }
    }
  }

  // ---- Solutions ----

  // What a crate depends on: dev dependencies count for the root, and only with tests.
  ghost predicate DependsAt(env: Env, id: string, d: Dependency)
    requires id in env.crates
  {
    || d in env.crates[id].dependencies
    || d in env.crates[id].buildDependencies
    || (env.runTests && id == env.rootPackageId && d in env.crates[id].devDependencies)
  }

  // Every enabled dependency is there, with every feature it is asked for.
  ghost predicate ServedAt(env: Env, assignment: Cache, id: string)
    requires id in env.crates && id in assignment
  {
    forall d | DependsAt(env, id, d) && Enabled(d, assignment[id], env.target) ::
      && d.packageId in assignment
      && forall g | AskedFor(d, assignment[id], g) :: g in assignment[d.packageId]
  }

  lemma SatisfiedIff(assignment: Cache, d: Dependency, features: seq<string>)
    ensures Satisfied(assignment, Request(d.packageId, DependencyFeatures(features, d))) <==>
            d.packageId in assignment && forall g | AskedFor(d, features, g) :: g in assignment[d.packageId]
  {
    var asked := DependencyFeatures(features, d);
    forall g
      ensures g in asked <==> AskedFor(d, features, g)
    {
      DependencyFeaturesIff(d, features, g);
    }
    if d.packageId in assignment {
      assert Elems(asked) <= Elems(assignment[d.packageId]) <==> forall g | g in asked :: g in assignment[d.packageId];
    }
  }

  lemma RequestsServedIff(deps: seq<Dependency>, features: seq<string>, target: Target, assignment: Cache)
    ensures AllSatisfied(assignment, EnabledRequests(deps, features, target)) <==>
            forall d: Dependency | d in deps && Enabled(d, features, target) ::
              && d.packageId in assignment
              && forall g | AskedFor(d, features, g) :: g in assignment[d.packageId]
  {
    forall d: Dependency
      ensures Makes(d, features, target, Request(d.packageId, DependencyFeatures(features, d))) <==> Enabled(d, features, target)
    {
      EnabledIff(d, features, target);
    }
    forall d: Dependency | d in deps && Enabled(d, features, target) && AllSatisfied(assignment, EnabledRequests(deps, features, target))
      ensures d.packageId in assignment
      ensures forall g | AskedFor(d, features, g) :: g in assignment[d.packageId]
    {
      var q := Request(d.packageId, DependencyFeatures(features, d));
      RequestMembers(deps, features, target, q);
      assert q in EnabledRequests(deps, features, target) && Satisfied(assignment, q);
      SatisfiedIff(assignment, d, features);
    }
    if forall d: Dependency | d in deps && Enabled(d, features, target) ::
         d.packageId in assignment && forall g | AskedFor(d, features, g) :: g in assignment[d.packageId] {
      forall q | q in EnabledRequests(deps, features, target)
        ensures Satisfied(assignment, q)
      {
        RequestMembers(deps, features, target, q);
        var d :| d in deps && Makes(d, features, target, q);
        EnabledIff(d, features, target);
        SatisfiedIff(assignment, d, features);
      }
    }
  }

  lemma ClosedIffServed(env: Env, assignment: Cache, id: string)
    requires id in env.crates && id in assignment
    ensures ClosedAt(env, assignment, id) <==> ServedAt(env, assignment, id)
  {
    var runtime, build := RuntimeDependencies(env, id), env.crates[id].buildDependencies;
    RequestsServedIff(runtime, assignment[id], env.target, assignment);
    RequestsServedIff(build, assignment[id], env.target, assignment);
    assert forall d :: DependsAt(env, id, d) <==> d in runtime || d in build;
  }

  // An assignment of features to crates that has the root features, in which each crate has the
  // features its own features bring, and each enabled dependency is served.
  ghost predicate IsSolution(env: Env, features: seq<string>, assignment: Cache) {
    && env.rootPackageId in assignment
    && (forall f | f in features :: f in assignment[env.rootPackageId])
    && (forall id | id in assignment && id in env.crates ::
          && (forall f | HasFeature(env.crates[id], Elems(assignment[id]), f) :: f in assignment[id])
          && ServedAt(env, assignment, id))
  }

  lemma SolutionIff(env: Env, features: seq<string>, assignment: Cache)
    ensures IsSolution(env, features, assignment) <==>
            Admissible(env, assignment) && Satisfied(assignment, Request(env.rootPackageId, features))
  {
    forall id | id in assignment && id in env.crates
      ensures ClosedAt(env, assignment, id) <==> ServedAt(env, assignment, id)
      ensures Elems(Step(env.crates[id], assignment[id])) <= Elems(assignment[id]) <==>
              forall f | HasFeature(env.crates[id], Elems(assignment[id]), f) :: f in assignment[id]
    {
      ClosedIffServed(env, assignment, id);
      OwnFeaturesIff(env.crates[id], assignment[id]);
    }
    SameMembers(features, assignment, env.rootPackageId);
  }

  lemma OwnFeaturesIff(crate: Crate, features: seq<string>)
    ensures Elems(Step(crate, features)) <= Elems(features) <==>
            forall f | HasFeature(crate, Elems(features), f) :: f in features
  {
    forall f
      ensures f in Step(crate, features) <==> HasFeature(crate, Elems(features), f)
    {
      StepIff(crate, features, f);
    }
    assert Elems(Step(crate, features)) <= Elems(features) <==> forall f | f in Step(crate, features) :: f in features;
  }

  lemma SameMembers(features: seq<string>, assignment: Cache, id: string)
    ensures Satisfied(assignment, Request(id, features)) <==> id in assignment && forall f | f in features :: f in assignment[id]
  {
    if id in assignment {
      assert Elems(features) <= Elems(assignment[id]) <==> forall f | f in features :: f in assignment[id];
    }
  }

  // ---- The theorems in these terms ----

  // That these are exactly the features that some list of features brings in the crate.
  ghost predicate BroughtIn(crate: Crate, own: seq<string>) {
    exists asked :: BroughtBy(crate, own, asked)
  }

  ghost predicate BroughtBy(crate: Crate, own: seq<string>, asked: seq<string>) {
    forall f :: f in own <==> HasFeature(crate, Elems(asked), f)
  }

  lemma SteppedIsBrought(crate: Crate, asked: seq<string>)
    ensures BroughtIn(crate, Step(crate, asked))
  {
    forall f
      ensures f in Step(crate, asked) <==> HasFeature(crate, Elems(asked), f)
    {
      StepIff(crate, asked, f);
    }
    assert BroughtBy(crate, Step(crate, asked), asked);
  }

  // The result of a resolution has the root features, and every enabled dependency of every
  // crate is there with its default features, its explicit ones and the forwarded ones. Each
  // crate has what some list of features brings in it.
  lemma ResolutionServes(env: Env, features: seq<string>, cache: Cache)
    requires MergePackageFeatures(env, features) == Merged(cache)
    ensures env.rootPackageId in cache && forall f | f in features :: f in cache[env.rootPackageId]
    ensures forall id | id in cache ::
              id in env.crates && ServedAt(env, cache, id) && BroughtIn(env.crates[id], cache[id])
  {
    assert Satisfied(cache, Request(env.rootPackageId, features)) by { ResolutionIsFixpoint(env, features); }
    SameMembers(features, cache, env.rootPackageId);
    forall id | id in cache
      ensures id in env.crates && ServedAt(env, cache, id) && BroughtIn(env.crates[id], cache[id])
    {
      assert SteppedAt(env, cache, id) && ClosedAt(env, cache, id) by { ResolutionIsFixpoint(env, features); }
      ClosedIffServed(env, cache, id);
      var asked :| cache[id] == Step(env.crates[id], asked);
      SteppedIsBrought(env.crates[id], asked);
    }
  }

  // The same, dependency by dependency, with what it is asked for spelled out.
  lemma EnabledDependencyIsServed(env: Env, features: seq<string>, cache: Cache, id: string, d: Dependency, name: string)
    requires id in cache && id in env.crates
    requires || d in env.crates[id].dependencies || d in env.crates[id].buildDependencies
             || (env.runTests && id == env.rootPackageId && d in env.crates[id].devDependencies)
    requires GoesBy(d, name) && (d.target.Some? ==> d.target.value(env.target, cache[id]))
    requires d.optional ==> || name in cache[id] || "dep:" + name in cache[id]
                            || exists rest :: name + "/" + rest in cache[id]
    requires MergePackageFeatures(env, features) == Merged(cache)
    ensures d.packageId in cache
    ensures d.usesDefaultFeatures ==> "default" in cache[d.packageId]
    ensures forall f | f in d.features :: f in cache[d.packageId]
    ensures forall g | name + "/" + g in cache[id] || name + "?/" + g in cache[id] :: g in cache[d.packageId]
  {
    ResolutionServes(env, features, cache);
    if d.optional {
      assert NamedAs(name, name) && NamedAs(name, "dep:" + name) && forall rest :: NamedAs(name, name + "/" + rest);
    }
    assert Enabled(d, cache[id], env.target) && DependsAt(env, id, d) && ServedAt(env, cache, id);
    assert d.usesDefaultFeatures ==> AskedFor(d, cache[id], "default");
    assert forall f | f in d.features :: AskedFor(d, cache[id], f);
    assert forall g | name + "/" + g in cache[id] || name + "?/" + g in cache[id] :: AskedFor(d, cache[id], g);
  }

  // It has no crate and no feature that is not in every solution.
  lemma ResolutionIsInEverySolution(env: Env, features: seq<string>, cache: Cache, solution: Cache)
    requires MonotoneTargets(env) && MergePackageFeatures(env, features) == Merged(cache)
    requires IsSolution(env, features, solution)
    ensures forall id | id in cache :: id in solution && forall f | f in cache[id] :: f in solution[id]
  {
    SolutionIff(env, features, solution);
    ResolutionIsNecessary(env, features, solution);
    forall id | id in cache
      ensures id in solution && forall f | f in cache[id] :: f in solution[id]
    {
      assert Elems(cache[id]) <= Elems(solution[id]);
      assert forall f | f in cache[id] :: f in Elems(cache[id]);
    }
  }

  // The crates that the derivation of a crate refers to: those of its dependencies that are
  // enabled for the builder's target by the features it is built with.
  lemma DerivationsIff(b: Build, merged: Cache, id: string, next: string)
    requires id in b.crates
    ensures next in Derivations(b, merged, id) <==>
            exists d: Dependency :: && d.packageId == next
                        && (|| d in b.crates[id].dependencies || d in b.crates[id].buildDependencies
                            || (b.runTests && id == b.packageId && d in b.crates[id].devDependencies))
                        && Enabled(d, if id in merged then merged[id] else [], b.target)
  {
    var env, features := b.MergeEnv(), CachedFeatures(merged, id);
    var runtime, build := RuntimeDependencies(env, id), b.crates[id].buildDependencies;
    DerivationMembers(runtime, features, b.target, next);
    DerivationMembers(build, features, b.target, next);
    forall d
      ensures DependencyEnabled(d, features, b.target) <==> Enabled(d, features, b.target)
    {
      EnabledIff(d, features, b.target);
    }
    assert forall d :: DependsAt(env, id, d) <==> d in runtime || d in build;
  }

  // What the builder's features are merged for.
  lemma MergedForTests(b: Build, features: seq<string>, d: Dependency)
    ensures Enabled(d, features, b.MergeEnv().target) <==>
            Enabled(d, features, Target(b.runTests, b.target.attrs))
    ensures b.MergeEnv().crates == b.crates && b.MergeEnv().rootPackageId == b.packageId
    ensures b.MergeEnv().runTests == b.runTests
  {
  }
}
