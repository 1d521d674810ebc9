/**
 Tables whose crates are not coherent, as is any crate with an optional dependency `n` and the
 implicit feature `n = ["dep:n"]`. There a resolution is a solution up to one more step in each
 crate, and the order of dependencies decides about nothing but features of the form `dep:n`.
 */
module Completion {
  import opened Text
  import opened Names
  import opened Expansion
  import opened Crates
  import opened Resolver
  import opened Fixpoint
  import opened LeastSolution

  // ---- One more step ----

  // After one more step nothing changes.
  ghost predicate Settles(crate: Crate) {
    forall features ::
      Step(crate, Step(crate, Step(crate, features))) == Step(crate, Step(crate, features))
  }

  // All that a crate asks for with these features is there.
  ghost predicate Serves(env: Env, cache: Cache, id: string, features: seq<string>)
    requires id in env.crates
  {
    && AllSatisfied(cache, RuntimeRequests(env, id, features))
    && AllSatisfied(cache, BuildRequests(env, id, features))
  }

  // What one more step adds asks for nothing new.
  ghost predicate AsksNothingNew(env: Env, id: string)
    requires id in env.crates
  {
    forall features, cache {:trigger Serves(env, cache, id, Step(env.crates[id], features))}
      | Serves(env, cache, id, Step(env.crates[id], features)) ::
      Serves(env, cache, id, Step(env.crates[id], Step(env.crates[id], features)))
  }

  ghost predicate TameCrate(env: Env, id: string)
    requires id in env.crates
  {
    Settles(env.crates[id]) && AsksNothingNew(env, id)
  }

  ghost predicate Tame(env: Env) {
    MonotoneTargets(env) && forall id | id in env.crates :: TameCrate(env, id)
  }

  // The features of the crate are complete as they are.
  ghost predicate CompleteAt(env: Env, cache: Cache, id: string)
    requires id in env.crates && id in cache
  {
    Step(env.crates[id], cache[id]) == cache[id]
  }

  // A result whose crates are tame, but for those that turn out to be complete.
  ghost predicate TameResult(env: Env, cache: Cache) {
    && MonotoneTargets(env) && cache.Keys <= env.crates.Keys
    && forall id | id in cache :: TameCrate(env, id) || CompleteAt(env, cache, id)
  }

  function Completed(env: Env, cache: Cache): Cache {
    map id | id in cache && id in env.crates :: Step(env.crates[id], cache[id])
  }

  lemma CoherentIsTame(env: Env)
    requires AllCoherent(env) && MonotoneTargets(env)
    ensures Tame(env)
  {
    forall id, features | id in env.crates
      ensures Step(env.crates[id], Step(env.crates[id], features)) == Step(env.crates[id], features)
    {
      CoherentIsIdempotent(env.crates[id], features);
    }
  }

  // ---- The completed resolution ----

  lemma CompletedGrows(env: Env, cache: Cache)
    requires cache.Keys <= env.crates.Keys
    ensures Grows(cache, Completed(env, cache))
  {
    forall id | id in cache
      ensures Elems(cache[id]) <= Elems(Completed(env, cache)[id])
    {
      StepKeeps(env.crates[id], cache[id]);
    }
  }

  ghost predicate Solves(env: Env, features: seq<string>, assignment: Cache) {
    Admissible(env, assignment) && Satisfied(assignment, Request(env.rootPackageId, features))
  }

  lemma CompletedAt(env: Env, cache: Cache, id: string)
    requires TameResult(env, cache) && id in cache
    requires SteppedAt(env, cache, id) && ClosedAt(env, cache, id)
    ensures var completed := Completed(env, cache);
            && Elems(Step(env.crates[id], completed[id])) <= Elems(completed[id])
            && ClosedAt(env, completed, id)
  {
    var crate, completed := env.crates[id], Completed(env, cache);
    var features :| cache[id] == Step(crate, features);
    CompletedGrows(env, cache);
    SatisfiedGrows(cache, completed, RuntimeRequests(env, id, cache[id]));
    SatisfiedGrows(cache, completed, BuildRequests(env, id, cache[id]));
    assert Serves(env, completed, id, Step(crate, features));
    if TameCrate(env, id) {
      assert Step(crate, completed[id]) == completed[id];
      assert Serves(env, completed, id, completed[id]);
    } else {
      assert completed[id] == cache[id];
    }
  }

  lemma CompletedBelow(env: Env, cache: Cache, assignment: Cache)
    requires Below(cache, assignment) && Admissible(env, assignment)
    ensures Below(Completed(env, cache), assignment)
  {
    forall id | id in cache && id in env.crates
      ensures id in assignment && Elems(Step(env.crates[id], cache[id])) <= Elems(assignment[id])
    {
      StepMonotone(env.crates[id], cache[id], assignment[id]);
      assert ClosedAt(env, assignment, id);
    }
  }

  ghost predicate IsFixpoint(env: Env, features: seq<string>, cache: Cache) {
    && cache.Keys <= env.crates.Keys && Satisfied(cache, Request(env.rootPackageId, features))
    && forall id | id in cache :: SteppedAt(env, cache, id) && ClosedAt(env, cache, id)
  }

  lemma CompletedSolves(env: Env, features: seq<string>, cache: Cache)
    requires TameResult(env, cache) && IsFixpoint(env, features, cache)
    ensures Solves(env, features, Completed(env, cache))
  {
    var completed := Completed(env, cache);
    forall id | id in completed && id in env.crates
      ensures Elems(Step(env.crates[id], completed[id])) <= Elems(completed[id]) && ClosedAt(env, completed, id)
    {
      CompletedAt(env, cache, id);
    }
    CompletedGrows(env, cache);
    SatisfiedStays(cache, completed, Request(env.rootPackageId, features));
  }

  lemma MergedIsFixpoint(env: Env, features: seq<string>, cache: Cache)
    requires MergePackageFeatures(env, features) == Merged(cache)
    ensures IsFixpoint(env, features, cache)
  {
    ResolutionIsFixpoint(env, features);
    forall id | id in cache
      ensures id in env.crates && SteppedAt(env, cache, id) && ClosedAt(env, cache, id)
    {
    }
  }

  // The resolution, completed by one more step in each crate, is the least solution.
  lemma CompletionIsLeastSolution(env: Env, features: seq<string>, cache: Cache)
    requires TameResult(env, cache) && MergePackageFeatures(env, features) == Merged(cache)
    ensures var completed := Completed(env, cache);
            && cache.Keys == completed.Keys && completed.Keys <= env.crates.Keys
            && Solves(env, features, completed)
            && forall a | Solves(env, features, a) :: Below(completed, a)
  {
    MergedIsFixpoint(env, features, cache);
    CompletedSolves(env, features, cache);
    CompletedKeys(env, cache);
    forall a | Solves(env, features, a)
      ensures Below(Completed(env, cache), a)
    {
      CompletedIsLeast(env, features, cache, a);
    }
  }

  lemma CompletedKeys(env: Env, cache: Cache)
    requires cache.Keys <= env.crates.Keys
    ensures cache.Keys == Completed(env, cache).Keys
  {
  }

  lemma CompletedIsLeast(env: Env, features: seq<string>, cache: Cache, a: Cache)
    requires MonotoneTargets(env) && MergePackageFeatures(env, features) == Merged(cache)
    requires Solves(env, features, a)
    ensures Below(Completed(env, cache), a)
  {
    assert Below(cache, a) by { ResolutionIsNecessary(env, features, a); }
    CompletedBelow(env, cache, a);
  }

  // So no package is missing exactly when there is a solution within the table.
  lemma ResolvesIffSolvable(env: Env, features: seq<string>)
    requires Tame(env)
    ensures MergePackageFeatures(env, features).Merged? <==>
            exists a :: Solves(env, features, a) && a.Keys <= env.crates.Keys
  {
    if MergePackageFeatures(env, features).Merged? {
      var cache := MergePackageFeatures(env, features).cache;
      MergedIsFixpoint(env, features, cache);
      CompletionIsLeastSolution(env, features, cache);
      var completed := Completed(env, cache);
      assert Solves(env, features, completed) && completed.Keys <= env.crates.Keys;
    }
    if a :| Solves(env, features, a) && a.Keys <= env.crates.Keys {
      SolvableResolves(env, features, a);
    }
  }

  // ---- Order ----

  lemma ServesUpToOrder(a: Env, b: Env, cache: Cache, id: string, features: seq<string>)
    requires SameUpToOrder(a, b) && id in a.crates && Serves(a, cache, id, features)
    ensures Serves(b, cache, id, features)
  {
    assert SameCrate(a.crates[id], b.crates[id]);
    SameRequests(RuntimeDependencies(a, id), RuntimeDependencies(b, id), features, a.target, cache);
    SameRequests(a.crates[id].buildDependencies, b.crates[id].buildDependencies, features, a.target, cache);
  }

  lemma TameUpToOrder(a: Env, b: Env)
    requires SameUpToOrder(a, b) && Tame(a)
    ensures Tame(b)
  {
    SameUpToOrderSymmetric(a, b);
    MonotoneUpToOrder(a, b);
    forall id | id in b.crates
      ensures TameCrate(b, id)
    {
      var ca, cb := a.crates[id], b.crates[id];
      assert SameCrate(ca, cb) && TameCrate(a, id);
      forall features
        ensures Step(ca, features) == Step(cb, features)
      {
        StepUpToOrder(ca, cb, features);
      }
      forall features, cache | Serves(b, cache, id, Step(cb, features))
        ensures Serves(b, cache, id, Step(cb, Step(cb, features)))
      {
        ServesUpToOrder(b, a, cache, id, Step(cb, features));
        assert Serves(a, cache, id, Step(ca, features));
        ServesUpToOrder(a, b, cache, id, Step(ca, Step(ca, features)));
      }
    }
  }

  lemma MonotoneUpToOrder(a: Env, b: Env)
    requires SameUpToOrder(a, b) && MonotoneTargets(a)
    ensures MonotoneTargets(b)
  {
    forall id | id in b.crates
      ensures MonotoneDependencies(b.crates[id], b.target)
    {
      assert SameCrate(a.crates[id], b.crates[id]) && MonotoneDependencies(a.crates[id], a.target);
    }
  }

  // If a resolution succeeds, it does with the dependencies in any order.
  lemma ResolvesInOtherOrder(a: Env, b: Env, features: seq<string>, cache: Cache)
    requires SameUpToOrder(a, b) && TameResult(a, cache)
    requires MergePackageFeatures(a, features) == Merged(cache)
    ensures MergePackageFeatures(b, features).Merged?
    ensures Below(MergePackageFeatures(b, features).cache, Completed(a, cache))
    ensures Solves(b, features, Completed(a, cache))
  {
    CompletionIsLeastSolution(a, features, cache);
    AdmissibleUpToOrder(a, b, Completed(a, cache));
    MonotoneUpToOrder(a, b);
    SolvableResolves(b, features, Completed(a, cache));
  }

  lemma NoLargerCompleted(a: Env, b: Env, features: seq<string>, ca: Cache, cb: Cache)
    requires SameUpToOrder(a, b) && TameResult(a, ca) && TameResult(b, cb)
    requires MergePackageFeatures(a, features) == Merged(ca) && MergePackageFeatures(b, features) == Merged(cb)
    ensures Below(Completed(b, cb), Completed(a, ca))
  {
    ResolvesInOtherOrder(a, b, features, ca);
    CompletionIsLeastSolution(b, features, cb);
  }

  lemma CompletedCanonical(env: Env, cache: Cache)
    ensures Canonical(Merged(Completed(env, cache)))
  {
    forall id | id in Completed(env, cache)
      ensures StrictlySorted(Completed(env, cache)[id])
    {
      StepKeeps(env.crates[id], cache[id]);
    }
  }

  // Completed, the resolution does not depend on the order of any crate's dependencies.
  lemma CompletionOrderIndependent(a: Env, b: Env, features: seq<string>, ca: Cache, cb: Cache)
    requires SameUpToOrder(a, b) && TameResult(a, ca) && TameResult(b, cb)
    requires MergePackageFeatures(a, features) == Merged(ca) && MergePackageFeatures(b, features) == Merged(cb)
    ensures Completed(a, ca) == Completed(b, cb)
  {
    SameUpToOrderSymmetric(a, b);
    NoLargerCompleted(a, b, features, ca, cb);
    NoLargerCompleted(b, a, features, cb, ca);
    CompletedCanonical(a, ca);
    CompletedCanonical(b, cb);
    NoLargerBothWays(Merged(Completed(a, ca)), Merged(Completed(b, cb)));
  }

  // In a tame table it does not depend on order either whether a package is missing.
  lemma ResolvesInEveryOrder(a: Env, b: Env, features: seq<string>)
    requires SameUpToOrder(a, b) && Tame(a)
    ensures MergePackageFeatures(a, features).Merged? <==> MergePackageFeatures(b, features).Merged?
  {
    TameUpToOrder(a, b);
    SameUpToOrderSymmetric(a, b);
    if MergePackageFeatures(a, features).Merged? {
      var cache := MergePackageFeatures(a, features).cache;
      MergedIsFixpoint(a, features, cache);
      ResolvesInOtherOrder(a, b, features, cache);
    } else if MergePackageFeatures(b, features).Merged? {
      var cache := MergePackageFeatures(b, features).cache;
      MergedIsFixpoint(b, features, cache);
      ResolvesInOtherOrder(b, a, features, cache);
    }
  }

  // ---- Tables with implicit features ----

  // Each optional dependency's name enables at most itself and its `dep:` form, which enables
  // nothing. Names can be told from the forms `dep:n`, `n/f` and `n?/f`.
  ghost predicate ImplicitNames(crate: Crate) {
    && PlainNames(crate.dependencies) && PlainNames(crate.devDependencies) && PlainNames(crate.buildDependencies)
    && forall d | d in crate.dependencies && d.optional ::
         && Elems(Enables(crate.featureMap, DepName(d))) <= {DepName(d), "dep:" + DepName(d)}
         && "dep:" + DepName(d) !in crate.featureMap
  }

  ghost predicate IgnoresFeatures(d: Dependency, target: Target) {
    forall a, b :: TargetHolds(d, target, a) == TargetHolds(d, target, b)
  }

  // No target predicate of the table reads features.
  ghost predicate AllIgnoreFeatures(env: Env) {
    forall id, d | id in env.crates
      && (d in env.crates[id].dependencies || d in env.crates[id].devDependencies || d in env.crates[id].buildDependencies) ::
      IgnoresFeatures(d, env.target)
  }

  // A result whose crates have implicit features at most, but for those that turn out to be
  // complete.
  ghost predicate ImplicitResult(env: Env, cache: Cache) {
    forall id | id in cache && id in env.crates :: ImplicitNames(env.crates[id]) || CompleteAt(env, cache, id)
  }

  // The features of the form `dep:n` that the names among `features` enable.
  ghost function Markers(crate: Crate, features: set<string>): set<string> {
    set d | d in crate.dependencies && d.optional && DepName(d) in features
            && "dep:" + DepName(d) in Enables(crate.featureMap, DepName(d)) :: "dep:" + DepName(d)
  }

  lemma MarkerEnablesItsName(d: Dependency, n: string)
    requires PlainName(DepName(d)) && PlainName(n) && FeatureEnables(d, "dep:" + n)
    ensures DepName(d) == n
  {
    var marker := "dep:" + n;
    assert marker[3] == ':' && '/' !in "dep:" && '/' !in marker;
    if HasPrefix(DepName(d) + "/", marker) {
      PrefixAt(DepName(d) + "/", marker, |DepName(d)|);
    }
    if marker == "dep:" + DepName(d) {
      assert n == marker[4..] && DepName(d) == marker[4..];
    }
  }

  lemma PlainNamed(deps: seq<Dependency>, d: Dependency)
    requires PlainNames(deps) && d in deps
    ensures PlainName(DepName(d))
  {
  }

  // What enables a dependency after one more step did so, or its name did, before.
  lemma EnabledBefore(crate: Crate, features: set<string>, d: Dependency, g: string)
    requires ImplicitNames(crate) && PlainName(DepName(d)) && FeatureEnables(d, g)
    requires g in Markers(crate, features)
    ensures DepName(d) in features
  {
    var e :| e in crate.dependencies && e.optional && DepName(e) in features && g == "dep:" + DepName(e);
    PlainNamed(crate.dependencies, e);
    MarkerEnablesItsName(d, DepName(e));
  }

  lemma ClosedWithMarkers(crate: Crate, features: seq<string>)
    requires ImplicitNames(crate)
    ensures var once := Elems(Step(crate, features));
            ClosedUpTo(crate.featureMap, once + Markers(crate, once), {})
  {
    var m, once := crate.featureMap, Elems(Step(crate, features));
    var expanded := ExpandFeatures(m, features);
    ExpandClosed(m, features);
    forall f | f in once + Markers(crate, once)
      ensures Elems(Enables(m, f)) <= once + Markers(crate, once)
    {
      if f in Markers(crate, once) {
        assert Enables(m, f) == [];
      } else {
        EnableExact(crate.dependencies, expanded, f);
        if f in expanded {
          forall g | g in Elems(Enables(m, f))
            ensures g in once
          {
            assert f in Elems(expanded) && g in Elems(expanded);
            EnableExact(crate.dependencies, expanded, g);
          }
        } else {
          var d :| d in crate.dependencies && NamedBy(d, expanded, f);
          assert Elems(Enables(m, f)) <= {f, "dep:" + f};
        }
      }
    }
  }

  // One more step adds at most the markers.
  lemma StepAgain(crate: Crate, features: seq<string>)
    requires ImplicitNames(crate)
    ensures var once := Step(crate, features);
            Elems(Step(crate, once)) <= Elems(once) + Markers(crate, Elems(once))
  {
    var m, once := crate.featureMap, Step(crate, features);
    var all := Elems(once) + Markers(crate, Elems(once));
    ClosedWithMarkers(crate, features);
    ExpandLeast(m, once, all);
    var expanded := ExpandFeatures(m, once);
    forall f | f in Step(crate, once)
      ensures f in all
    {
      EnableExact(crate.dependencies, expanded, f);
      if f in expanded {
        assert f in Elems(expanded);
      } else {
        var d :| d in crate.dependencies && NamedBy(d, expanded, f);
        AnyEnablesExact(d, expanded);
        var g :| g in expanded && FeatureEnables(d, g);
        assert g in Elems(expanded);
        PlainNamed(crate.dependencies, d);
        if g in Elems(once) {
          NameOfEnabled(crate, features, d, g);
        } else {
          EnabledBefore(crate, Elems(once), d, g);
        }
      }
    }
  }

  // A step that brings a feature that enables an optional dependency brings the dependency's name.
  lemma NameOfEnabled(crate: Crate, features: seq<string>, d: Dependency, g: string)
    requires d in crate.dependencies && d.optional && FeatureEnables(d, g)
    requires PlainNames(crate.dependencies) && g in Step(crate, features)
    ensures DepName(d) in Step(crate, features)
  {
    var expanded := ExpandFeatures(crate.featureMap, features);
    EnableExact(crate.dependencies, expanded, g);
    EnableExact(crate.dependencies, expanded, DepName(d));
    if g in expanded {
      AnyEnablesExact(d, expanded);
      assert NamedBy(d, expanded, DepName(d));
    } else {
      var e :| e in crate.dependencies && NamedBy(e, expanded, g);
      PlainNamed(crate.dependencies, e);
      PlainNameEnablesItself(d, g);
    }
  }

  lemma ImplicitSettles(crate: Crate)
    requires ImplicitNames(crate)
    ensures Settles(crate)
  {
    forall features
      ensures Step(crate, Step(crate, Step(crate, features))) == Step(crate, Step(crate, features))
    {
      SettlesAt(crate, Step(crate, features), features);
    }
  }

  lemma SettlesAt(crate: Crate, once: seq<string>, features: seq<string>)
    requires ImplicitNames(crate) && once == Step(crate, features)
    ensures Step(crate, Step(crate, once)) == Step(crate, once)
  {
    var twice := Step(crate, once);
    var thrice := Step(crate, twice);
    StepAgain(crate, features);
    StepAgain(crate, once);
    StepKeeps(crate, once);
    StepKeeps(crate, twice);
    forall g | g in Markers(crate, Elems(twice))
      ensures g in Elems(twice)
    {
      MarkerIsThere(crate, once, g);
    }
    SortedCanonical(thrice, twice);
  }

  lemma PlainIsNoMarker(name: string)
    requires PlainName(name)
    ensures forall n :: name != "dep:" + n
  {
    forall n
      ensures name != "dep:" + n
    {
      assert ("dep:" + n)[3] == ':';
    }
  }

  lemma MarkerIsThere(crate: Crate, once: seq<string>, g: string)
    requires ImplicitNames(crate) && g in Markers(crate, Elems(Step(crate, once)))
    requires Elems(Step(crate, once)) <= Elems(once) + Markers(crate, Elems(once))
    ensures g in Step(crate, once)
  {
    var m := crate.featureMap;
    var d :| d in crate.dependencies && d.optional && DepName(d) in Elems(Step(crate, once))
             && g in Enables(m, DepName(d)) && g == "dep:" + DepName(d);
    PlainNamed(crate.dependencies, d);
    var name := DepName(d);
    PlainIsNoMarker(name);
    assert name in Elems(once);
    ExpandClosed(m, once);
    assert g in Elems(Enables(m, name)) && name in Elems(ExpandFeatures(m, once));
    assert g in Elems(ExpandFeatures(m, once));
    EnableExact(crate.dependencies, ExpandFeatures(m, once), g);
  }

  // ---- Markers ask for nothing ----

  lemma MarkerForwardsNothing(name: string, n: string)
    requires PlainName(n)
    ensures ForwardedFeature(name, "dep:" + n).None?
  {
    var marker := "dep:" + n;
    assert '/' !in "dep:" && '/' !in marker;
    if HasPrefix(name + "/", marker) { PrefixAt(name + "/", marker, |name|); }
    if HasPrefix(name + "?/", marker) { PrefixAt(name + "?/", marker, |name| + 1); }
  }

  lemma ForwardsNoMore(crate: Crate, once: seq<string>, more: seq<string>, d: Dependency)
    requires ImplicitNames(crate) && Elems(more) <= Elems(once) + Markers(crate, Elems(once))
    ensures Elems(DependencyFeatures(more, d)) <= Elems(DependencyFeatures(once, d))
  {
    forall f | f in ForwardedFeatures(DepName(d), more)
      ensures f in ForwardedFeatures(DepName(d), once)
    {
      ForwardedExact(DepName(d), more, f);
      ForwardedExact(DepName(d), once, f);
      var g :| g in more && ForwardedFeature(DepName(d), g) == Common.Some(f);
      assert g in Elems(more);
      if g in Markers(crate, Elems(once)) {
        var e :| e in crate.dependencies && g == "dep:" + DepName(e);
        PlainNamed(crate.dependencies, e);
        MarkerForwardsNothing(DepName(d), DepName(e));
      }
    }
  }

  lemma EnablesNoMore(crate: Crate, once: seq<string>, more: seq<string>, d: Dependency)
    requires ImplicitNames(crate) && Elems(more) <= Elems(once) + Markers(crate, Elems(once))
    requires PlainName(DepName(d)) && AnyEnables(d, more)
    ensures AnyEnables(d, once)
  {
    AnyEnablesExact(d, more);
    AnyEnablesExact(d, once);
    var g :| g in more && FeatureEnables(d, g);
    assert g in Elems(more);
    if g in Markers(crate, Elems(once)) {
      EnabledBefore(crate, Elems(once), d, g);
      assert FeatureEnables(d, DepName(d));
    }
  }

  lemma RequestsNoMore(
      crate: Crate, deps: seq<Dependency>, target: Target, once: seq<string>, more: seq<string>, cache: Cache)
    requires ImplicitNames(crate) && Elems(more) <= Elems(once) + Markers(crate, Elems(once))
    requires PlainNames(deps) && forall d | d in deps :: IgnoresFeatures(d, target)
    requires AllSatisfied(cache, EnabledRequests(deps, once, target))
    ensures AllSatisfied(cache, EnabledRequests(deps, more, target))
  {
    forall q | q in EnabledRequests(deps, more, target)
      ensures Satisfied(cache, q)
    {
      RequestMembers(deps, more, target, q);
      var d :| d in deps && Makes(d, more, target, q);
      PlainNamed(deps, d);
      if d.optional { EnablesNoMore(crate, once, more, d); }
      ForwardsNoMore(crate, once, more, d);
      var served := Request(d.packageId, DependencyFeatures(once, d));
      assert IgnoresFeatures(d, target) && Makes(d, once, target, served);
      RequestMembers(deps, once, target, served);
      assert Satisfied(cache, served);
    }
  }

  lemma ImplicitIsTame(env: Env, id: string)
    requires AllIgnoreFeatures(env) && id in env.crates && ImplicitNames(env.crates[id])
    ensures TameCrate(env, id)
  {
    var crate := env.crates[id];
    PlainRuntime(env, id);
    ImplicitSettles(crate);
    forall features, cache | Serves(env, cache, id, Step(crate, features))
      ensures Serves(env, cache, id, Step(crate, Step(crate, features)))
    {
      StepAgain(crate, features);
      RequestsNoMore(crate, RuntimeDependencies(env, id), env.target, Step(crate, features), Step(crate, Step(crate, features)), cache);
      RequestsNoMore(crate, crate.buildDependencies, env.target, Step(crate, features), Step(crate, Step(crate, features)), cache);
    }
  }

  lemma PlainRuntime(env: Env, id: string)
    requires id in env.crates && ImplicitNames(env.crates[id])
    ensures PlainNames(RuntimeDependencies(env, id))
  {
  }

  lemma IgnoringIsMonotone(env: Env)
    requires AllIgnoreFeatures(env)
    ensures MonotoneTargets(env)
  {
    forall id, d | id in env.crates
      && (d in env.crates[id].dependencies || d in env.crates[id].devDependencies || d in env.crates[id].buildDependencies)
      ensures MonotoneTarget(d, env.target)
    {
      assert IgnoresFeatures(d, env.target);
    }
  }

  lemma ImplicitResultIsTame(env: Env, features: seq<string>, cache: Cache)
    requires AllIgnoreFeatures(env) && ImplicitResult(env, cache)
    requires MergePackageFeatures(env, features) == Merged(cache)
    ensures TameResult(env, cache)
  {
    IgnoringIsMonotone(env);
    MergedIsFixpoint(env, features, cache);
    forall id | id in cache
      ensures TameCrate(env, id) || CompleteAt(env, cache, id)
    {
      if ImplicitNames(env.crates[id]) { ImplicitIsTame(env, id); }
    }
  }

  lemma IgnoringUpToOrder(a: Env, b: Env)
    requires SameUpToOrder(a, b) && AllIgnoreFeatures(a)
    ensures AllIgnoreFeatures(b)
  {
    forall id | id in b.crates
      ensures SameCrate(a.crates[id], b.crates[id])
    {
    }
  }

  // There the order of dependencies decides about nothing but markers.
  lemma OrderDecidesMarkers(a: Env, b: Env, features: seq<string>, ca: Cache, cb: Cache, id: string, f: string)
    requires SameUpToOrder(a, b) && AllIgnoreFeatures(a)
    requires MergePackageFeatures(a, features) == Merged(ca) && MergePackageFeatures(b, features) == Merged(cb)
    requires ImplicitResult(a, ca) && ImplicitResult(b, cb)
    ensures ca.Keys == cb.Keys && cb.Keys <= b.crates.Keys
    ensures id in ca && f in ca[id] && f !in cb[id] ==> f in Markers(b.crates[id], Elems(cb[id]))
  {
    IgnoringUpToOrder(a, b);
    ImplicitResultIsTame(a, features, ca);
    ImplicitResultIsTame(b, features, cb);
    CompletionOrderIndependent(a, b, features, ca, cb);
    CompletionIsLeastSolution(a, features, ca);
    CompletionIsLeastSolution(b, features, cb);
    MergedIsFixpoint(b, features, cb);
    if id in ca && f in ca[id] && f !in cb[id] {
      CompletedGrows(a, ca);
      assert f in Elems(ca[id]) && f in Elems(Completed(b, cb)[id]);
      assert SteppedAt(b, cb, id);
      var fs :| cb[id] == Step(b.crates[id], fs);
      assert ImplicitNames(b.crates[id]);
      StepAgain(b.crates[id], fs);
    }
  }

  // ---- Coherence, looked up ----

  // A feature of the form `n/f` that the feature map does not know brings itself and `n`.
  lemma StepOfForward(crate: Crate, d: Dependency, e: string)
    requires PlainNames(crate.dependencies) && d in crate.dependencies && d.optional
    requires HasPrefix(DepName(d) + "/", e) && e !in crate.featureMap
    ensures Elems(Step(crate, [e])) == {e, DepName(d)}
  {
    var m, deps := crate.featureMap, crate.dependencies;
    assert Enables(m, e) == [];
    ExpandClosed(m, [e]);
    ExpandLeast(m, [e], {e});
    var expanded := ExpandFeatures(m, [e]);
    assert e in Elems([e]) && Elems(expanded) == {e};
    forall f
      ensures f in Step(crate, [e]) <==> f == e || f == DepName(d)
    {
      EnableExact(deps, expanded, f);
      assert f in expanded <==> f in Elems(expanded);
      AnyEnablesExact(d, expanded);
      assert FeatureEnables(d, e) && e in expanded;
      assert NamedBy(d, expanded, DepName(d));
      if x :| x in deps && NamedBy(x, expanded, f) {
        AnyEnablesExact(x, expanded);
        var g :| g in expanded && FeatureEnables(x, g);
        assert g in Elems(expanded);
        PlainNamed(deps, x);
        PlainNamed(deps, d);
        ForwardEnablesOne(d, x, e);
      }
    }
  }

  lemma ForwardEnablesOne(d: Dependency, x: Dependency, e: string)
    requires PlainName(DepName(d)) && PlainName(DepName(x))
    requires HasPrefix(DepName(d) + "/", e) && FeatureEnables(x, e)
    ensures DepName(x) == DepName(d)
  {
    var n, y := DepName(d), DepName(x);
    PrefixAt(n + "/", e, |n|);
    assert '/' in e && '/' !in "dep:" && '/' !in "dep:" + y;
    assert e == n + ['/'] + e[|n| + 1..] && e == y + ['/'] + e[|y| + 1..];
    SameHead(n, e[|n| + 1..], y, e[|y| + 1..], '/');
  }

  lemma StepOfName(crate: Crate, d: Dependency)
    requires PlainNames(crate.dependencies) && d in crate.dependencies && d.optional
    ensures DepName(d) in Step(crate, [DepName(d)])
    ensures Elems(Step(crate, [DepName(d)])) == {DepName(d)} <==>
            Elems(Enables(crate.featureMap, DepName(d))) <= {DepName(d)}
  {
    var m, n := crate.featureMap, DepName(d);
    var expanded := ExpandFeatures(m, [n]);
    ExpandClosed(m, [n]);
    assert n in Elems([n]) && n in Elems(expanded);
    EnableExact(crate.dependencies, expanded, n);
    StepKeepsExpanded(crate, expanded, [n]);
    if Elems(Enables(m, n)) <= {n} {
      ExpandLeast(m, [n], {n});
      forall f | f in Step(crate, [n])
        ensures f == n
      {
        EnableExact(crate.dependencies, expanded, f);
        if f !in expanded {
          var x :| x in crate.dependencies && NamedBy(x, expanded, f);
          AnyEnablesExact(x, expanded);
          var g :| g in expanded && FeatureEnables(x, g);
          assert g in Elems(expanded);
          PlainNamed(crate.dependencies, d);
          PlainNameEnablesItself(x, n);
        } else {
          assert f in Elems(expanded);
        }
      }
    }
  }

  lemma StepKeepsExpanded(crate: Crate, expanded: seq<string>, features: seq<string>)
    requires expanded == ExpandFeatures(crate.featureMap, features)
    ensures Elems(expanded) <= Elems(Step(crate, features))
  {
    forall f | f in expanded
      ensures f in Step(crate, features)
    {
      EnableExact(crate.dependencies, expanded, f);
    }
  }

  // For plain names a crate is coherent exactly when the feature map has nothing for the name
  // of any optional dependency. The implicit feature `n = ["dep:n"]` already is something.
  lemma CoherentIffNothingListed(crate: Crate)
    requires PlainNames(crate.dependencies)
    ensures Coherent(crate) <==>
            forall d | d in crate.dependencies && d.optional :: Elems(Enables(crate.featureMap, DepName(d))) <= {DepName(d)}
  {
    forall d | d in crate.dependencies && d.optional
      ensures Elems(Step(crate, [DepName(d)])) == {DepName(d)} <==>
              Elems(Enables(crate.featureMap, DepName(d))) <= {DepName(d)}
    {
      StepOfName(crate, d);
    }
    if Coherent(crate) {
      forall d | d in crate.dependencies && d.optional
        ensures Elems(Step(crate, [DepName(d)])) == {DepName(d)}
      {
        CoherentThenAlone(crate, d);
      }
    }
    if forall d | d in crate.dependencies && d.optional :: Elems(Step(crate, [DepName(d)])) == {DepName(d)} {
      forall d, e | d in crate.dependencies && d.optional && FeatureEnables(d, e)
        ensures Elems(Step(crate, [DepName(d)])) <= Elems(Step(crate, [e]))
      {
        EnablingAddsName(crate, d, e);
      }
    }
  }

  lemma CoherentThenAlone(crate: Crate, d: Dependency)
    requires Coherent(crate) && PlainNames(crate.dependencies) && d in crate.dependencies && d.optional
    ensures Elems(Step(crate, [DepName(d)])) == {DepName(d)}
  {
    var n := DepName(d);
    var e := NewForward(n, Elems(Step(crate, [n])) + crate.featureMap.Keys);
    StepOfForward(crate, d, e);
    assert FeatureEnables(d, e);
    StepOfName(crate, d);
  }

  lemma NewForward(n: string, known: set<string>) returns (e: string)
    ensures HasPrefix(n + "/", e) && e !in known
  {
    var length := LongerThanAll(known);
    e := n + "/" + seq(length, _ => 'f');
    assert e[..|n| + 1] == n + "/";
  }
}
