/**
 How much the traversal enables: nothing beyond what every solution must, and, where a
 crate's own operator is idempotent, exactly the least solution, whatever the order in
 which dependencies are listed.
 */
module LeastSolution {
  import opened Names
  import opened Expansion
  import opened Crates
  import opened Resolver
  import opened Fixpoint

  // ---- Monotonicity of one crate ----

  // More features never switch a dependency off.
  ghost predicate MonotoneTarget(d: Dependency, target: Target) {
    forall a, b {:trigger TargetHolds(d, target, a), TargetHolds(d, target, b)}
      | Elems(a) <= Elems(b) && TargetHolds(d, target, a) :: TargetHolds(d, target, b)
  }

  ghost predicate MonotoneDependencies(crate: Crate, target: Target) {
    && (forall d | d in crate.dependencies :: MonotoneTarget(d, target))
    && (forall d | d in crate.devDependencies :: MonotoneTarget(d, target))
    && (forall d | d in crate.buildDependencies :: MonotoneTarget(d, target))
  }

  ghost predicate MonotoneTargets(env: Env) {
    forall id | id in env.crates :: MonotoneDependencies(env.crates[id], env.target)
  }

  lemma AnyEnablesMonotone(d: Dependency, a: seq<string>, b: seq<string>)
    requires Elems(a) <= Elems(b) && AnyEnables(d, a)
    ensures AnyEnables(d, b)
  {
    AnyEnablesExact(d, a);
    AnyEnablesExact(d, b);
    var f :| f in a && FeatureEnables(d, f);
    assert f in Elems(a);
  }

  lemma ExpandMonotone(m: FeatureMap, a: seq<string>, b: seq<string>)
    requires Elems(a) <= Elems(b)
    ensures Elems(ExpandFeatures(m, a)) <= Elems(ExpandFeatures(m, b))
  {
    ExpandClosed(m, b);
    ExpandLeast(m, a, Elems(ExpandFeatures(m, b)));
  }

  lemma ExpandIdempotent(m: FeatureMap, a: seq<string>)
    ensures ExpandFeatures(m, ExpandFeatures(m, a)) == ExpandFeatures(m, a)
  {
    var once := ExpandFeatures(m, a);
    ExpandClosed(m, a);
    ExpandClosed(m, once);
    ExpandLeast(m, once, Elems(once));
    SortedCanonical(ExpandFeatures(m, once), once);
  }

  lemma EnableMonotone(deps: seq<Dependency>, a: seq<string>, b: seq<string>)
    requires Elems(a) <= Elems(b)
    ensures Elems(EnableFeatures(deps, a)) <= Elems(EnableFeatures(deps, b))
  {
    forall f | f in EnableFeatures(deps, a)
      ensures f in EnableFeatures(deps, b)
    {
      EnableExact(deps, a, f);
      EnableExact(deps, b, f);
      if f in a {
        assert f in Elems(a);
      } else {
        var d :| d in deps && NamedBy(d, a, f);
        AnyEnablesMonotone(d, a, b);
        assert NamedBy(d, b, f);
      }
    }
  }

  lemma StepMonotone(crate: Crate, a: seq<string>, b: seq<string>)
    requires Elems(a) <= Elems(b)
    ensures Elems(Step(crate, a)) <= Elems(Step(crate, b))
  {
    ExpandMonotone(crate.featureMap, a, b);
    EnableMonotone(crate.dependencies, ExpandFeatures(crate.featureMap, a), ExpandFeatures(crate.featureMap, b));
  }

  lemma RequestMonotone(d: Dependency, a: seq<string>, b: seq<string>)
    requires Elems(a) <= Elems(b)
    ensures Elems(DependencyFeatures(a, d)) <= Elems(DependencyFeatures(b, d))
  {
    forall g | g in ForwardedFeatures(DepName(d), a)
      ensures g in ForwardedFeatures(DepName(d), b)
    {
      ForwardedExact(DepName(d), a, g);
      ForwardedExact(DepName(d), b, g);
      var f :| f in a && ForwardedFeature(DepName(d), f) == Common.Some(g);
      assert f in Elems(a);
    }
  }

  lemma FewerFeaturesAskLess(
      cache: Cache, deps: seq<Dependency>, a: seq<string>, b: seq<string>, target: Target)
    requires Elems(a) <= Elems(b)
    requires forall d | d in deps :: MonotoneTarget(d, target)
    requires AllSatisfied(cache, EnabledRequests(deps, b, target))
    ensures AllSatisfied(cache, EnabledRequests(deps, a, target))
  {
    forall q | q in EnabledRequests(deps, a, target)
      ensures Satisfied(cache, q)
    {
      RequestMembers(deps, a, target, q);
      var d :| d in deps && Makes(d, a, target, q);
      var q' := Request(d.packageId, DependencyFeatures(b, d));
      assert MonotoneTarget(d, target);
      if d.optional { AnyEnablesMonotone(d, a, b); }
      assert Makes(d, b, target, q');
      RequestMembers(deps, b, target, q');
      RequestMonotone(d, a, b);
      assert Satisfied(cache, q');
    }
  }

  // ---- Solutions ----

  // An assignment of features under which no crate's own operator and no enabled dependency
  // asks for more. Crates that do not exist may be assigned features, too.
  ghost predicate Admissible(env: Env, assignment: Cache) {
    forall id {:trigger ClosedAt(env, assignment, id)} | id in assignment && id in env.crates ::
      && Elems(Step(env.crates[id], assignment[id])) <= Elems(assignment[id])
      && ClosedAt(env, assignment, id)
  }

  ghost predicate Below(cache: Cache, assignment: Cache) {
    forall id {:trigger cache[id]} {:trigger id in cache} | id in cache :: id in assignment && Elems(cache[id]) <= Elems(assignment[id])
  }

  // What minimality says of a result: it stays below the assignment, or the crate that was
  // not found is one the assignment needs as well.
  ghost predicate Necessary(env: Env, r: Resolution, assignment: Cache) {
    match r
    case Merged(cache) => Below(cache, assignment)
    case PackageNotFound(id) => id in assignment && id !in env.crates
  }

  lemma {:induction false} VisitNecessary(
      env: Env, universe: set<string>, cache: Cache, q: Request, assignment: Cache)
    requires IsUniverse(env, universe) && IsCache(cache, universe) && Elems(q.features) <= universe
    requires MonotoneTargets(env) && Admissible(env, assignment)
    requires Below(cache, assignment) && Satisfied(assignment, q)
    ensures Necessary(env, Visit(env, universe, cache, q), assignment)
    decreases Missing(env, universe, cache), 1, 0
  {
    var combined := Combined(cache, q);
    if !(q.packageId in cache && cache[q.packageId] == combined) {
      VisitAsks(universe, cache, q);
      MergeNecessary(env, universe, q.packageId, combined, cache, assignment);
    }
  }

  lemma {:induction false} FoldNecessary(
      env: Env, universe: set<string>, cache: Cache, requests: seq<Request>, assignment: Cache)
    requires IsUniverse(env, universe) && IsCache(cache, universe) && RequestsBounded(requests, universe)
    requires MonotoneTargets(env) && Admissible(env, assignment)
    requires Below(cache, assignment) && AllSatisfied(assignment, requests)
    ensures Necessary(env, FoldRequests(env, universe, cache, requests), assignment)
    decreases Missing(env, universe, cache), 1, |requests|
  {
    if requests != [] {
      VisitNecessary(env, universe, cache, requests[0], assignment);
      var visited := Visit(env, universe, cache, requests[0]);
      if visited.Merged? {
        MissingShrinks(env, universe, cache, visited.cache);
        FoldNecessary(env, universe, visited.cache, requests[1..], assignment);
      }
    }
  }

  lemma RequestsNecessary(env: Env, id: string, enabled: seq<string>, assignment: Cache)
    requires ClosedAt(env, assignment, id) && MonotoneDependencies(env.crates[id], env.target)
    requires Elems(enabled) <= Elems(assignment[id])
    ensures AllSatisfied(assignment, RuntimeRequests(env, id, enabled))
    ensures AllSatisfied(assignment, BuildRequests(env, id, enabled))
  {
    FewerFeaturesAskLess(assignment, RuntimeDependencies(env, id), enabled, assignment[id], env.target);
    FewerFeaturesAskLess(assignment, env.crates[id].buildDependencies, enabled, assignment[id], env.target);
  }

  lemma SelfBelow(id: string, features: seq<string>, enabled: seq<string>, cache: Cache, assignment: Cache)
    requires Asks(cache, id, features)
    requires Elems(features) <= Elems(enabled) && StrictlySorted(enabled)
    requires Below(cache, assignment) && id in assignment && Elems(enabled) <= Elems(assignment[id])
    ensures Below(WithSelf(cache, id, enabled), assignment)
  {
    SelfEntry(id, features, enabled, cache);
  }

  lemma SelfNecessary(env: Env, id: string, features: seq<string>, assignment: Cache)
    requires MonotoneTargets(env) && Admissible(env, assignment)
    requires id in env.crates && Satisfied(assignment, Request(id, features))
    ensures var enabled := Step(env.crates[id], features);
            && Elems(enabled) <= Elems(assignment[id])
            && AllSatisfied(assignment, RuntimeRequests(env, id, enabled))
            && AllSatisfied(assignment, BuildRequests(env, id, enabled))
  {
    assert ClosedAt(env, assignment, id) && MonotoneDependencies(env.crates[id], env.target);
    StepMonotone(env.crates[id], features, assignment[id]);
    RequestsNecessary(env, id, Step(env.crates[id], features), assignment);
  }

  lemma {:induction false} MergeNecessary(
      env: Env, universe: set<string>, id: string, features: seq<string>, cache: Cache, assignment: Cache)
    requires IsUniverse(env, universe) && IsCache(cache, universe)
    requires Elems(features) <= universe && Asks(cache, id, features)
    requires MonotoneTargets(env) && Admissible(env, assignment)
    requires Below(cache, assignment) && Satisfied(assignment, Request(id, features))
    ensures Necessary(env, Merge(env, universe, id, features, cache), assignment)
    decreases Missing(env, universe, cache), 0, 0
  {
    if id in env.crates {
      var enabled := Step(env.crates[id], features);
      CallWithin(env, universe, id, features);
      var self := WithSelf(cache, id, enabled);
      SelfShrinks(env, universe, id, features, enabled, cache);
      SelfNecessary(env, id, features, assignment);
      SelfBelow(id, features, enabled, cache, assignment);
      BothNecessary(env, universe, self, RuntimeRequests(env, id, enabled), BuildRequests(env, id, enabled), assignment);
    }
  }

  lemma {:induction false} BothNecessary(
      env: Env, universe: set<string>, cache: Cache, runtime: seq<Request>, build: seq<Request>, assignment: Cache)
    requires IsUniverse(env, universe) && IsCache(cache, universe)
    requires RequestsBounded(runtime, universe) && RequestsBounded(build, universe)
    requires MonotoneTargets(env) && Admissible(env, assignment)
    requires Below(cache, assignment) && AllSatisfied(assignment, runtime) && AllSatisfied(assignment, build)
    ensures Necessary(env, ResolveBoth(env, universe, cache, runtime, build), assignment)
    decreases Missing(env, universe, cache), 2, 0
  {
    FoldNecessary(env, universe, cache, runtime, assignment);
    var r := FoldRequests(env, universe, cache, runtime);
    if r.Merged? {
      MissingShrinks(env, universe, cache, r.cache);
      FoldNecessary(env, universe, r.cache, build, assignment);
    }
  }

  // Minimality: the resolution is below every solution that has the root features.
  lemma ResolutionIsNecessary(env: Env, features: seq<string>, assignment: Cache)
    requires MonotoneTargets(env) && Admissible(env, assignment)
    requires Satisfied(assignment, Request(env.rootPackageId, features))
    ensures Necessary(env, MergePackageFeatures(env, features), assignment)
  {
    UniverseExists(env, features);
    MergeNecessary(env, Universe(env, features), env.rootPackageId, features, map[], assignment);
  }

  // ---- When a crate's operator is idempotent ----

  ghost predicate StepIdempotent(crate: Crate) {
    forall features :: Step(crate, Step(crate, features)) == Step(crate, features)
  }

  // The name that enabling an optional dependency adds brings nothing that the enabling
  // feature does not bring.
  ghost predicate Coherent(crate: Crate) {
    forall d, e {:trigger FeatureEnables(d, e)} | d in crate.dependencies && d.optional && FeatureEnables(d, e) ::
      Elems(Step(crate, [DepName(d)])) <= Elems(Step(crate, [e]))
  }

  // If all of the assignment is in the table, no package is missing.
  lemma SolvableResolves(env: Env, features: seq<string>, assignment: Cache)
    requires MonotoneTargets(env) && Admissible(env, assignment) && assignment.Keys <= env.crates.Keys
    requires Satisfied(assignment, Request(env.rootPackageId, features))
    ensures MergePackageFeatures(env, features).Merged?
    ensures Below(MergePackageFeatures(env, features).cache, assignment)
  {
    ResolutionIsNecessary(env, features, assignment);
  }

  lemma StepOfExpanded(crate: Crate, features: seq<string>, y: string)
    requires y in ExpandFeatures(crate.featureMap, features)
    ensures Elems(Step(crate, [y])) <= Elems(Step(crate, features))
  {
    var expanded := ExpandFeatures(crate.featureMap, features);
    assert Elems([y]) <= Elems(expanded);
    StepMonotone(crate, [y], expanded);
    ExpandIdempotent(crate.featureMap, features);
  }

  lemma StepPointwise(crate: Crate, features: seq<string>, f: string)
    requires f in Step(crate, features)
    ensures exists y :: y in features && f in Step(crate, [y])
  {
    var m := crate.featureMap;
    var expanded := ExpandFeatures(m, features);
    EnableExact(crate.dependencies, expanded, f);
    var e := f;
    if f !in expanded {
      var d :| d in crate.dependencies && NamedBy(d, expanded, f);
      AnyEnablesExact(d, expanded);
      e :| e in expanded && FeatureEnables(d, e);
    }
    ExpandPointwise(m, features, e);
    var y :| y in features && e in ExpandFeatures(m, [y]);
    EnableExact(crate.dependencies, ExpandFeatures(m, [y]), f);
    if f !in expanded {
      var d :| d in crate.dependencies && NamedBy(d, expanded, f) && FeatureEnables(d, e);
      AnyEnablesExact(d, ExpandFeatures(m, [y]));
      assert NamedBy(d, ExpandFeatures(m, [y]), f);
    }
  }

  // The name an enabling feature adds is among the features that feature brings.
  lemma EnablingAddsName(crate: Crate, d: Dependency, e: string)
    requires d in crate.dependencies && d.optional && FeatureEnables(d, e)
    ensures DepName(d) in Step(crate, [e])
  {
    var expanded := ExpandFeatures(crate.featureMap, [e]);
    ExpandClosed(crate.featureMap, [e]);
    assert e in Elems([e]);
    AnyEnablesExact(d, expanded);
    assert NamedBy(d, expanded, DepName(d));
    EnableExact(crate.dependencies, expanded, DepName(d));
  }

  lemma CoherentBringsAll(crate: Crate, features: seq<string>, y: string)
    requires Coherent(crate) && y in Step(crate, features)
    ensures Elems(Step(crate, [y])) <= Elems(Step(crate, features))
  {
    var expanded := ExpandFeatures(crate.featureMap, features);
    EnableExact(crate.dependencies, expanded, y);
    if y in expanded {
      StepOfExpanded(crate, features, y);
    } else {
      var d :| d in crate.dependencies && NamedBy(d, expanded, y);
      AnyEnablesExact(d, expanded);
      var e :| e in expanded && FeatureEnables(d, e);
      StepOfExpanded(crate, features, e);
    }
  }

  lemma CoherentIsIdempotent(crate: Crate, features: seq<string>)
    requires Coherent(crate)
    ensures Step(crate, Step(crate, features)) == Step(crate, features)
  {
    var once := Step(crate, features);
    StepKeeps(crate, once);
    StepKeeps(crate, features);
    forall f | f in Elems(Step(crate, once))
      ensures f in Elems(once)
    {
      StepPointwise(crate, once, f);
      var y :| y in once && f in Step(crate, [y]);
      CoherentBringsAll(crate, features, y);
      assert f in Elems(Step(crate, [y]));
    }
    SortedCanonical(Step(crate, once), once);
  }

  lemma IdempotentIsCoherent(crate: Crate, d: Dependency, e: string)
    requires Step(crate, Step(crate, [e])) == Step(crate, [e])
    requires d in crate.dependencies && d.optional && FeatureEnables(d, e)
    ensures Elems(Step(crate, [DepName(d)])) <= Elems(Step(crate, [e]))
  {
    EnablingAddsName(crate, d, e);
    assert Elems([DepName(d)]) <= Elems(Step(crate, [e]));
    StepMonotone(crate, [DepName(d)], Step(crate, [e]));
  }

  // Exactly the coherent crates have an idempotent operator.
  lemma IdempotentIffCoherent(crate: Crate)
    ensures StepIdempotent(crate) <==> Coherent(crate)
  {
    if Coherent(crate) {
      forall features
        ensures Step(crate, Step(crate, features)) == Step(crate, features)
      {
        CoherentIsIdempotent(crate, features);
      }
    }
    if StepIdempotent(crate) {
      forall d, e | d in crate.dependencies && d.optional && FeatureEnables(d, e)
        ensures Elems(Step(crate, [DepName(d)])) <= Elems(Step(crate, [e]))
      {
        IdempotentIsCoherent(crate, d, e);
      }
    }
  }

  ghost predicate AllCoherent(env: Env) {
    forall id | id in env.crates :: Coherent(env.crates[id])
  }

  // Then the resolution is itself a solution, so it is the least one.
  lemma ResolutionIsLeastSolution(env: Env, features: seq<string>)
    requires AllCoherent(env) && MonotoneTargets(env)
    requires MergePackageFeatures(env, features).Merged?
    ensures var cache := MergePackageFeatures(env, features).cache;
            && Admissible(env, cache)
            && cache.Keys <= env.crates.Keys
            && Satisfied(cache, Request(env.rootPackageId, features))
            && forall a | Admissible(env, a) && Satisfied(a, Request(env.rootPackageId, features)) :: Below(cache, a)
  {
    var cache := MergePackageFeatures(env, features).cache;
    ResolutionIsFixpoint(env, features);
    forall id | id in cache
      ensures id in env.crates && Elems(Step(env.crates[id], cache[id])) <= Elems(cache[id])
    {
      assert SteppedAt(env, cache, id);
      var fs :| cache[id] == Step(env.crates[id], fs);
      CoherentIsIdempotent(env.crates[id], fs);
    }
    forall a | Admissible(env, a) && Satisfied(a, Request(env.rootPackageId, features))
      ensures Below(cache, a)
    {
      ResolutionIsNecessary(env, features, a);
    }
  }

  // ---- Order independence ----

  ghost predicate SameDependencies(a: seq<Dependency>, b: seq<Dependency>) {
    forall d :: d in a <==> d in b
  }

  ghost predicate SameCrate(a: Crate, b: Crate) {
    && a.featureMap == b.featureMap
    && SameDependencies(a.dependencies, b.dependencies)
    && SameDependencies(a.devDependencies, b.devDependencies)
    && SameDependencies(a.buildDependencies, b.buildDependencies)
  }

  // Equal but for the order, and the repetition, of the dependencies.
  ghost predicate SameUpToOrder(a: Env, b: Env) {
    && a.target == b.target && a.runTests == b.runTests && a.rootPackageId == b.rootPackageId
    && a.crates.Keys == b.crates.Keys
    && forall id | id in a.crates :: SameCrate(a.crates[id], b.crates[id])
  }

  lemma SameUpToOrderSymmetric(a: Env, b: Env)
    requires SameUpToOrder(a, b)
    ensures SameUpToOrder(b, a)
  {
    forall id | id in b.crates
      ensures SameCrate(b.crates[id], a.crates[id])
    {
      assert SameCrate(a.crates[id], b.crates[id]);
    }
  }

  lemma SameEnable(a: seq<Dependency>, b: seq<Dependency>, features: seq<string>)
    requires SameDependencies(a, b)
    ensures EnableFeatures(a, features) == EnableFeatures(b, features)
  {
    forall f
      ensures f in EnableFeatures(a, features) <==> f in EnableFeatures(b, features)
    {
      EnableExact(a, features, f);
      EnableExact(b, features, f);
    }
    SortedCanonical(EnableFeatures(a, features), EnableFeatures(b, features));
  }

  lemma StepUpToOrder(a: Crate, b: Crate, features: seq<string>)
    requires SameCrate(a, b)
    ensures Step(a, features) == Step(b, features)
  {
    SameEnable(a.dependencies, b.dependencies, ExpandFeatures(a.featureMap, features));
  }

  lemma SameRequests(a: seq<Dependency>, b: seq<Dependency>, features: seq<string>, target: Target, cache: Cache)
    requires SameDependencies(a, b)
    requires AllSatisfied(cache, EnabledRequests(a, features, target))
    ensures AllSatisfied(cache, EnabledRequests(b, features, target))
  {
    forall q | q in EnabledRequests(b, features, target)
      ensures Satisfied(cache, q)
    {
      RequestMembers(a, features, target, q);
      RequestMembers(b, features, target, q);
    }
  }

  lemma AdmissibleUpToOrder(a: Env, b: Env, assignment: Cache)
    requires SameUpToOrder(a, b) && Admissible(a, assignment)
    ensures Admissible(b, assignment)
  {
    forall id | id in assignment && id in b.crates
      ensures Elems(Step(b.crates[id], assignment[id])) <= Elems(assignment[id])
      ensures ClosedAt(b, assignment, id)
    {
      assert SameCrate(a.crates[id], b.crates[id]);
      SameEnable(a.crates[id].dependencies, b.crates[id].dependencies,
                 ExpandFeatures(a.crates[id].featureMap, assignment[id]));
      assert ClosedAt(a, assignment, id);
      SameRequests(RuntimeDependencies(a, id), RuntimeDependencies(b, id), assignment[id], a.target, assignment);
      SameRequests(a.crates[id].buildDependencies, b.crates[id].buildDependencies, assignment[id], a.target, assignment);
    }
  }

  // If `a` resolves, so does `b`, with no more than `a`.
  ghost predicate NoLarger(b: Resolution, a: Resolution) {
    a.Merged? ==> b.Merged? && Below(b.cache, a.cache)
  }

  ghost predicate Canonical(r: Resolution) {
    r.Merged? ==> forall id | id in r.cache :: StrictlySorted(r.cache[id])
  }

  lemma ResolutionIsCanonical(env: Env, features: seq<string>)
    ensures Canonical(MergePackageFeatures(env, features))
  {
    ResolutionIsFixpoint(env, features);
  }

  lemma NoLargerUpToOrder(a: Env, b: Env, features: seq<string>)
    requires SameUpToOrder(a, b)
    requires AllCoherent(a) && MonotoneTargets(a) && MonotoneTargets(b)
    ensures NoLarger(MergePackageFeatures(b, features), MergePackageFeatures(a, features))
  {
    var ra := MergePackageFeatures(a, features);
    if ra.Merged? {
      ResolutionIsLeastSolution(a, features);
      AdmissibleUpToOrder(a, b, ra.cache);
      ResolutionIsNecessary(b, features, ra.cache);
    }
  }

  // Both fail, or both give the same features to the same crates.
  ghost predicate SameResult(a: Resolution, b: Resolution) {
    && (a.Merged? <==> b.Merged?)
    && (a.Merged? ==> a.cache == b.cache)
  }

  lemma NoLargerBothWays(a: Resolution, b: Resolution)
    requires NoLarger(a, b) && NoLarger(b, a) && Canonical(a) && Canonical(b)
    ensures SameResult(a, b)
  {
    if a.Merged? {
      forall id | id in a.cache
        ensures id in b.cache && a.cache[id] == b.cache[id]
      {
        SortedCanonical(a.cache[id], b.cache[id]);
      }
    }
  }

  // The result does not depend on the order in which any crate lists its dependencies.
  lemma OrderIndependent(a: Env, b: Env, features: seq<string>)
    requires SameUpToOrder(a, b)
    requires AllCoherent(a) && AllCoherent(b) && MonotoneTargets(a) && MonotoneTargets(b)
    ensures SameResult(MergePackageFeatures(a, features), MergePackageFeatures(b, features))
  {
    NoLargerUpToOrder(a, b, features);
    SameUpToOrderSymmetric(a, b);
    NoLargerUpToOrder(b, a, features);
    ResolutionIsCanonical(a, features);
    ResolutionIsCanonical(b, features);
    NoLargerBothWays(MergePackageFeatures(a, features), MergePackageFeatures(b, features));
  }
}
