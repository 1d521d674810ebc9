/**
 The result of the traversal is a fixpoint: every crate in it asks nothing of its enabled
 dependencies that they do not have, on cyclic crate graphs too.
 */
module Fixpoint {
  import opened Names
  import opened Expansion
  import opened Crates
  import opened Resolver

  ghost predicate Satisfied(cache: Cache, q: Request) {
    q.packageId in cache && Elems(q.features) <= Elems(cache[q.packageId])
  }

  ghost predicate AllSatisfied(cache: Cache, requests: seq<Request>) {
    forall q {:trigger Satisfied(cache, q)} {:trigger q in requests} | q in requests :: Satisfied(cache, q)
  }

  // Everything `id` asks for with the features it has is there.
  ghost predicate ClosedAt(env: Env, cache: Cache, id: string) {
    && id in env.crates && id in cache
    && AllSatisfied(cache, RuntimeRequests(env, id, cache[id]))
    && AllSatisfied(cache, BuildRequests(env, id, cache[id]))
  }

  // The features of `id` are those some request enables.
  ghost predicate SteppedAt(env: Env, cache: Cache, id: string) {
    id in env.crates && id in cache && exists features :: cache[id] == Step(env.crates[id], features)
  }

  ghost predicate Changed(before: Cache, after: Cache, id: string) {
    id in after && (id in before ==> before[id] != after[id])
  }

  ghost predicate Settled(env: Env, before: Cache, after: Cache) {
    forall p {:trigger Changed(before, after, p)} | Changed(before, after, p) :: SteppedAt(env, after, p) && ClosedAt(env, after, p)
  }

  // The invariant of a call for `id` still at work with the features `enabled`. If `id` is
  // re-entered with more features, the inner call closes it; if not, this one still has to.
  ghost predicate SettledBut(env: Env, before: Cache, after: Cache, id: string, enabled: seq<string>) {
    forall p {:trigger Changed(before, after, p)} | Changed(before, after, p) ::
      SteppedAt(env, after, p) && (ClosedAt(env, after, p) || (p == id && after[p] == enabled))
  }

  lemma SatisfiedGrows(before: Cache, after: Cache, requests: seq<Request>)
    requires Grows(before, after) && AllSatisfied(before, requests)
    ensures AllSatisfied(after, requests)
  {
    forall q | q in requests
      ensures Satisfied(after, q)
    {
      assert Satisfied(before, q);
    }
  }

  lemma SatisfiedStays(before: Cache, after: Cache, q: Request)
    requires Grows(before, after) && Satisfied(before, q)
    ensures Satisfied(after, q)
  {
  }

  lemma SatisfiedCons(cache: Cache, requests: seq<Request>)
    requires requests != [] && Satisfied(cache, requests[0]) && AllSatisfied(cache, requests[1..])
    ensures AllSatisfied(cache, requests)
  {
    assert requests == [requests[0]] + requests[1..];
  }

  // What `id` asks for with `enabled` is all that is left to check when its call returns.
  lemma CallFinishes(env: Env, before: Cache, after: Cache, id: string, enabled: seq<string>)
    requires id in env.crates && SettledBut(env, before, after, id, enabled)
    requires AllSatisfied(after, RuntimeRequests(env, id, enabled))
    requires AllSatisfied(after, BuildRequests(env, id, enabled))
    ensures Settled(env, before, after)
  {
    forall p | Changed(before, after, p)
      ensures SteppedAt(env, after, p) && ClosedAt(env, after, p)
    {
    }
  }

  lemma SettledChain(env: Env, before: Cache, mid: Cache, after: Cache, id: string, enabled: seq<string>)
    requires SettledBut(env, before, mid, id, enabled)
    requires Settled(env, mid, after) && Grows(mid, after)
    ensures SettledBut(env, before, after, id, enabled)
  {
    forall p | Changed(before, after, p)
      ensures SteppedAt(env, after, p) && (ClosedAt(env, after, p) || (p == id && after[p] == enabled))
    {
      if !Changed(mid, after, p) {
        assert Changed(before, mid, p) && after[p] == mid[p];
        if ClosedAt(env, mid, p) {
          SatisfiedGrows(mid, after, RuntimeRequests(env, p, mid[p]));
          SatisfiedGrows(mid, after, BuildRequests(env, p, mid[p]));
        }
      }
    }
  }

  lemma {:induction false} VisitSettles(env: Env, universe: set<string>, cache: Cache, q: Request)
    requires IsUniverse(env, universe) && IsCache(cache, universe)
    requires Elems(q.features) <= universe
    ensures var r := Visit(env, universe, cache, q);
            r.Merged? ==> Settled(env, cache, r.cache) && Satisfied(r.cache, q)
    decreases Missing(env, universe, cache), 1, 0
  {
    var combined := Combined(cache, q);
    if !(q.packageId in cache && cache[q.packageId] == combined) {
      VisitAsks(universe, cache, q);
      MergeSettles(env, universe, q.packageId, combined, cache);
    }
  }

  lemma VisitAsks(universe: set<string>, cache: Cache, q: Request)
    requires IsCache(cache, universe)
    requires !(q.packageId in cache && cache[q.packageId] == Combined(cache, q))
    ensures Asks(cache, q.packageId, Combined(cache, q))
  {
    if q.packageId in cache && Elems(cache[q.packageId]) == Elems(Combined(cache, q)) {
      SortedCanonical(cache[q.packageId], Combined(cache, q));
    }
  }

  lemma {:induction false} FoldSettles(
      env: Env, universe: set<string>, before: Cache, id: string, enabled: seq<string>,
      cache: Cache, requests: seq<Request>)
    requires IsUniverse(env, universe) && IsCache(cache, universe)
    requires RequestsBounded(requests, universe)
    requires SettledBut(env, before, cache, id, enabled)
    ensures var r := FoldRequests(env, universe, cache, requests);
            r.Merged? ==> SettledBut(env, before, r.cache, id, enabled) && AllSatisfied(r.cache, requests)
    decreases Missing(env, universe, cache), 1, |requests|
  {
    if requests != [] {
      VisitSettles(env, universe, cache, requests[0]);
      var visited := Visit(env, universe, cache, requests[0]);
      if visited.Merged? {
        SettledChain(env, before, cache, visited.cache, id, enabled);
        MissingShrinks(env, universe, cache, visited.cache);
        FoldSettles(env, universe, before, id, enabled, visited.cache, requests[1..]);
        var r := FoldRequests(env, universe, visited.cache, requests[1..]);
        if r.Merged? {
          SatisfiedStays(visited.cache, r.cache, requests[0]);
          SatisfiedCons(r.cache, requests);
        }
      }
    }
  }

  // Every crate whose entry a call changed is closed in its result.
  lemma {:induction false} MergeSettles(
      env: Env, universe: set<string>, id: string, features: seq<string>, cache: Cache)
    requires IsUniverse(env, universe) && IsCache(cache, universe)
    requires Elems(features) <= universe && Asks(cache, id, features)
    ensures var r := Merge(env, universe, id, features, cache);
            r.Merged? ==> Settled(env, cache, r.cache) && Satisfied(r.cache, Request(id, features))
    decreases Missing(env, universe, cache), 0, 0
  {
    if id in env.crates {
      var enabled := Step(env.crates[id], features);
      CallWithin(env, universe, id, features);
      var self := WithSelf(cache, id, enabled);
      SelfShrinks(env, universe, id, features, enabled, cache);
      SelfEntry(id, features, enabled, cache);
      assert SettledBut(env, cache, self, id, enabled);
      var runtime, build := RuntimeRequests(env, id, enabled), BuildRequests(env, id, enabled);
      BothSettle(env, universe, cache, id, enabled, self, runtime, build);
      var r := ResolveBoth(env, universe, self, runtime, build);
      if r.Merged? {
        CallFinishes(env, cache, r.cache, id, enabled);
        SatisfiedStays(self, r.cache, Request(id, features));
      }
    }
  }

  lemma {:induction false} BothSettle(
      env: Env, universe: set<string>, before: Cache, id: string, enabled: seq<string>,
      cache: Cache, runtime: seq<Request>, build: seq<Request>)
    requires IsUniverse(env, universe) && IsCache(cache, universe)
    requires RequestsBounded(runtime, universe) && RequestsBounded(build, universe)
    requires SettledBut(env, before, cache, id, enabled)
    ensures var r := ResolveBoth(env, universe, cache, runtime, build);
            r.Merged? ==> && SettledBut(env, before, r.cache, id, enabled)
                          && AllSatisfied(r.cache, runtime) && AllSatisfied(r.cache, build)
    decreases Missing(env, universe, cache), 2, 0
  {
    FoldSettles(env, universe, before, id, enabled, cache, runtime);
    var r1 := FoldRequests(env, universe, cache, runtime);
    if r1.Merged? {
      MissingShrinks(env, universe, cache, r1.cache);
      FoldSettles(env, universe, before, id, enabled, r1.cache, build);
      var r2 := FoldRequests(env, universe, r1.cache, build);
      if r2.Merged? { SatisfiedGrows(r1.cache, r2.cache, runtime); }
    }
  }

  // The whole resolution: the root is there with its features, and every crate is closed.
  lemma ResolutionIsFixpoint(env: Env, features: seq<string>)
    ensures var r := MergePackageFeatures(env, features);
            r.Merged? ==>
              && Satisfied(r.cache, Request(env.rootPackageId, features))
              && forall id | id in r.cache ::
                   && StrictlySorted(r.cache[id])
                   && SteppedAt(env, r.cache, id)
                   && ClosedAt(env, r.cache, id)
  {
    UniverseExists(env, features);
    MergeSettles(env, Universe(env, features), env.rootPackageId, features, map[]);
    var r := MergePackageFeatures(env, features);
    if r.Merged? {
      forall id | id in r.cache
        ensures StrictlySorted(r.cache[id]) && SteppedAt(env, r.cache, id) && ClosedAt(env, r.cache, id)
      {
        assert Changed(map[], r.cache, id);
      }
    }
  }

  // ---- No crate goes missing ----

  ghost predicate KnownPackages(env: Env, deps: seq<Dependency>) {
    forall d | d in deps :: d.packageId in env.crates
  }

  // Every dependency names a crate of the table.
  ghost predicate TableComplete(env: Env) {
    forall id | id in env.crates ::
      && KnownPackages(env, RuntimeDependencies(env, id))
      && KnownPackages(env, env.crates[id].buildDependencies)
  }

  ghost predicate KnownRequests(env: Env, requests: seq<Request>) {
    forall q | q in requests :: q.packageId in env.crates
  }

  lemma KnownPackagesKnownRequests(env: Env, deps: seq<Dependency>, features: seq<string>)
    requires KnownPackages(env, deps)
    ensures KnownRequests(env, EnabledRequests(deps, features, env.target))
  {
    forall q | q in EnabledRequests(deps, features, env.target)
      ensures q.packageId in env.crates
    {
      RequestMembers(deps, features, env.target, q);
    }
  }

  lemma {:induction false} FoldFinds(env: Env, universe: set<string>, cache: Cache, requests: seq<Request>)
    requires IsUniverse(env, universe) && IsCache(cache, universe) && RequestsBounded(requests, universe)
    requires TableComplete(env) && KnownRequests(env, requests)
    ensures FoldRequests(env, universe, cache, requests).Merged?
    decreases Missing(env, universe, cache), 1, |requests|
  {
    if requests != [] {
      VisitFinds(env, universe, cache, requests[0]);
      var visited := Visit(env, universe, cache, requests[0]);
      MissingShrinks(env, universe, cache, visited.cache);
      FoldFinds(env, universe, visited.cache, requests[1..]);
    }
  }

  lemma {:induction false} VisitFinds(env: Env, universe: set<string>, cache: Cache, q: Request)
    requires IsUniverse(env, universe) && IsCache(cache, universe) && Elems(q.features) <= universe
    requires TableComplete(env) && q.packageId in env.crates
    ensures Visit(env, universe, cache, q).Merged?
    decreases Missing(env, universe, cache), 1, 0
  {
    if !(q.packageId in cache && cache[q.packageId] == Combined(cache, q)) {
      VisitAsks(universe, cache, q);
      MergeFinds(env, universe, q.packageId, Combined(cache, q), cache);
    }
  }

  lemma {:induction false} MergeFinds(env: Env, universe: set<string>, id: string, features: seq<string>, cache: Cache)
    requires IsUniverse(env, universe) && IsCache(cache, universe)
    requires Elems(features) <= universe && Asks(cache, id, features)
    requires TableComplete(env) && id in env.crates
    ensures Merge(env, universe, id, features, cache).Merged?
    decreases Missing(env, universe, cache), 0, 0
  {
    var enabled := Step(env.crates[id], features);
    CallWithin(env, universe, id, features);
    var self := WithSelf(cache, id, enabled);
    SelfShrinks(env, universe, id, features, enabled, cache);
    KnownPackagesKnownRequests(env, RuntimeDependencies(env, id), enabled);
    KnownPackagesKnownRequests(env, env.crates[id].buildDependencies, enabled);
    BothFound(env, universe, self, RuntimeRequests(env, id, enabled), BuildRequests(env, id, enabled));
  }

  lemma {:induction false} BothFound(
      env: Env, universe: set<string>, cache: Cache, runtime: seq<Request>, build: seq<Request>)
    requires IsUniverse(env, universe) && IsCache(cache, universe)
    requires RequestsBounded(runtime, universe) && RequestsBounded(build, universe)
    requires TableComplete(env) && KnownRequests(env, runtime) && KnownRequests(env, build)
    ensures ResolveBoth(env, universe, cache, runtime, build).Merged?
    decreases Missing(env, universe, cache), 2, 0
  {
    FoldFinds(env, universe, cache, runtime);
    var r := FoldRequests(env, universe, cache, runtime);
    MissingShrinks(env, universe, cache, r.cache);
    FoldFinds(env, universe, r.cache, build);
  }

  // A complete table resolves from any of its crates.
  lemma CompleteTableResolves(env: Env, features: seq<string>)
    requires TableComplete(env) && env.rootPackageId in env.crates
    ensures MergePackageFeatures(env, features).Merged?
  {
    UniverseExists(env, features);
    MergeFinds(env, Universe(env, features), env.rootPackageId, features, map[]);
  }

  // A call enables at least what the features it was made with enable.
  lemma MergeKeepsStep(env: Env, universe: set<string>, id: string, features: seq<string>, cache: Cache)
    requires IsUniverse(env, universe) && IsCache(cache, universe)
    requires Elems(features) <= universe && Asks(cache, id, features)
    ensures var r := Merge(env, universe, id, features, cache);
            r.Merged? ==> id in env.crates && id in r.cache && Elems(Step(env.crates[id], features)) <= Elems(r.cache[id])
  {
    if id in env.crates {
      var enabled := Step(env.crates[id], features);
      CallWithin(env, universe, id, features);
      SelfEntry(id, features, enabled, cache);
      SelfShrinks(env, universe, id, features, enabled, cache);
    }
  }
}
