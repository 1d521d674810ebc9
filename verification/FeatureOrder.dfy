/**
 What happens without coherence. If a crate has a feature `f` that brings the feature `n`, but
 not what `n` asked for on its own would bring, `mergePackageFeatures` depends on the order in
 which `f` and `n` are asked for, and drops part of a request. Most crates with
 optional dependencies are of this kind: `n/x` brings `n`, but not the `dep:n` of the implicit
 feature `n = ["dep:n"]`.
 */
module FeatureOrder {
  import opened Common
  import opened Names
  import opened Expansion
  import opened Crates
  import opened Resolver
  import opened Fixpoint
  import opened LeastSolution
  import opened BuildCoverage

  // ---- A crate among crates without dependencies ----

  ghost predicate IsLeaf(env: Env, id: string) {
    id in env.crates && env.crates[id] == EmptyCrate()
  }

  lemma LeafVisited(env: Env, universe: set<string>, cache: Cache, q: Request, id: string)
    requires IsUniverse(env, universe) && IsCache(cache, universe) && Elems(q.features) <= universe
    requires IsLeaf(env, q.packageId) && q.packageId != id && id in cache
    ensures var r := Visit(env, universe, cache, q);
            r.Merged? && IsCache(r.cache, universe) && id in r.cache && r.cache[id] == cache[id]
  {
    var combined := Combined(cache, q);
    if !(q.packageId in cache && cache[q.packageId] == combined) {
      VisitAsks(universe, cache, q);
      assert RuntimeDependencies(env, q.packageId) == [];
      MergeOfLeaf(env, universe, q.packageId, combined, cache);
      assert GrowsInto(universe, cache, Visit(env, universe, cache, q));
    }
  }

  ghost predicate LeafRequests(env: Env, requests: seq<Request>, id: string) {
    forall q | q in requests :: IsLeaf(env, q.packageId) && q.packageId != id
  }

  // Requests to leaves leave every other entry alone.
  lemma {:induction false} LeavesVisited(env: Env, universe: set<string>, cache: Cache, requests: seq<Request>, id: string)
    requires IsUniverse(env, universe) && IsCache(cache, universe) && RequestsBounded(requests, universe)
    requires LeafRequests(env, requests, id) && id in cache
    ensures var r := FoldRequests(env, universe, cache, requests);
            r.Merged? && IsCache(r.cache, universe) && id in r.cache && r.cache[id] == cache[id]
    decreases |requests|
  {
    if requests != [] {
      assert requests[0] in requests;
      LeafVisited(env, universe, cache, requests[0], id);
      LeavesVisited(env, universe, Visit(env, universe, cache, requests[0]).cache, requests[1..], id);
    }
  }

  ghost function PackagesOf(crate: Crate): set<string> {
    set d | d in crate.dependencies + crate.devDependencies + crate.buildDependencies :: d.packageId
  }

  lemma RequestsToPackages(crate: Crate, deps: seq<Dependency>, features: seq<string>, target: Target, q: Request)
    requires forall d | d in deps :: d in crate.dependencies + crate.devDependencies + crate.buildDependencies
    requires q in EnabledRequests(deps, features, target)
    ensures q.packageId in PackagesOf(crate)
  {
    RequestMembers(deps, features, target, q);
  }

  // Asked for features before anything is cached for it, such a crate gets its own step.
  lemma AloneAsked(env: Env, universe: set<string>, cache: Cache, id: string, f: string)
    requires IsUniverse(env, universe) && IsCache(cache, universe) && f in universe
    requires id in env.crates && id !in cache && id != env.rootPackageId
    requires forall p | p in PackagesOf(env.crates[id]) :: IsLeaf(env, p) && p != id
    ensures var r := Visit(env, universe, cache, Request(id, [f]));
            && r.Merged? && IsCache(r.cache, universe)
            && id in r.cache && r.cache[id] == Step(env.crates[id], [f])
  {
    var crate := env.crates[id];
    var enabled := Step(crate, [f]);
    CombinedWithNew(cache, Request(id, [f]), f);
    assert Elems([f]) <= universe;
    CallWithin(env, universe, id, [f]);
    SelfEntry(id, [f], enabled, cache);
    SelfShrinks(env, universe, id, [f], enabled, cache);
    AsksLeaves(env, id, enabled);
    BothLeaves(env, universe, WithSelf(cache, id, enabled), RuntimeRequests(env, id, enabled), BuildRequests(env, id, enabled), id);
    assert Visit(env, universe, cache, Request(id, [f])) == Merge(env, universe, id, [f], cache);
  }

  lemma BothLeaves(
      env: Env, universe: set<string>, cache: Cache, runtime: seq<Request>, build: seq<Request>, id: string)
    requires IsUniverse(env, universe) && IsCache(cache, universe)
    requires RequestsBounded(runtime, universe) && RequestsBounded(build, universe)
    requires LeafRequests(env, runtime, id) && LeafRequests(env, build, id) && id in cache
    ensures var r := ResolveBoth(env, universe, cache, runtime, build);
            r.Merged? && IsCache(r.cache, universe) && id in r.cache && r.cache[id] == cache[id]
  {
    LeavesVisited(env, universe, cache, runtime, id);
    LeavesVisited(env, universe, FoldRequests(env, universe, cache, runtime).cache, build, id);
  }

  lemma AsksLeaves(env: Env, id: string, enabled: seq<string>)
    requires id in env.crates && id != env.rootPackageId
    requires forall p | p in PackagesOf(env.crates[id]) :: IsLeaf(env, p) && p != id
    ensures LeafRequests(env, RuntimeRequests(env, id, enabled), id)
    ensures LeafRequests(env, BuildRequests(env, id, enabled), id)
  {
    var crate := env.crates[id];
    assert RuntimeDependencies(env, id) == crate.dependencies;
    forall q | q in RuntimeRequests(env, id, enabled)
      ensures IsLeaf(env, q.packageId) && q.packageId != id
    {
      RequestsToPackages(crate, crate.dependencies, enabled, env.target, q);
    }
    forall q | q in BuildRequests(env, id, enabled)
      ensures IsLeaf(env, q.packageId) && q.packageId != id
    {
      RequestsToPackages(crate, crate.buildDependencies, enabled, env.target, q);
    }
  }

  // ---- The two orders ----

  // Asks a crate for one feature.
  function Asking(q: string, feature: string): Dependency {
    Dependency(q, q, None, false, false, [feature], None)
  }

  // The crates of a table in which the root asks `q` for one feature, then for another.
  ghost function TwoAskers(crate: Crate, root: string, q: string, first: string, second: string): map<string, Crate> {
    (map p | p in PackagesOf(crate) :: EmptyCrate())
    [root := EmptyCrate().(dependencies := [Asking(q, first), Asking(q, second)])][q := crate]
  }

  ghost function Table(crate: Crate, target: Target, root: string, q: string, first: string, second: string): Env {
    Env(TwoAskers(crate, root, q, first, second), target, false, root)
  }

  ghost predicate Fresh(crate: Crate, root: string, q: string) {
    root != q && root !in PackagesOf(crate) && q !in PackagesOf(crate)
  }

  lemma RootAsks(env: Env, root: string, q: string, first: string, second: string)
    requires env.rootPackageId == root && root in env.crates && !env.runTests
    requires env.crates[root] == EmptyCrate().(dependencies := [Asking(q, first), Asking(q, second)])
    ensures Step(env.crates[root], []) == []
    ensures RuntimeRequests(env, root, []) == [Request(q, [first]), Request(q, [second])]
    ensures BuildRequests(env, root, []) == []
  {
    var deps := [Asking(q, first), Asking(q, second)];
    PlainStep(env.crates[root], []);
    assert Elems(SortedUnique([])) == {};
    assert RuntimeDependencies(env, root) == deps;
    RequestsOfTwo(Asking(q, first), Asking(q, second), [], env.target);
    assert DependencyFeatures([], Asking(q, first)) == [first] && DependencyFeatures([], Asking(q, second)) == [second];
  }

  lemma RequestsOfTwo(d1: Dependency, d2: Dependency, features: seq<string>, target: Target)
    requires DependencyEnabled(d1, features, target) && DependencyEnabled(d2, features, target)
    ensures EnabledRequests([d1, d2], features, target)
         == [Request(d1.packageId, DependencyFeatures(features, d1)), Request(d2.packageId, DependencyFeatures(features, d2))]
  {
    assert [d1, d2][1..] == [d2];
    RequestsOfOne(d2, features, target);
    assert FilterEnabled([d2], features, target) == [d2];
    assert FilterEnabled([d1, d2], features, target) == [d1] + [d2] == [d1, d2];
  }

  // The root's fold is a visit to `q` with the first feature, then one with the second.
  lemma RootMerges(env: Env, universe: set<string>, root: string, q: string, first: string, second: string)
    requires env.rootPackageId == root && root in env.crates && !env.runTests
    requires env.crates[root] == EmptyCrate().(dependencies := [Asking(q, first), Asking(q, second)])
    requires IsUniverse(env, universe)
    ensures first in universe && second in universe
    ensures var r1 := Visit(env, universe, map[root := []], Request(q, [first]));
            Merge(env, universe, root, [], map[])
            == if r1.Merged? then Visit(env, universe, r1.cache, Request(q, [second])) else r1
  {
    var q1, q2 := Request(q, [first]), Request(q, [second]);
    RootAsks(env, root, q, first, second);
    CallWithin(env, universe, root, []);
    assert q1 in [q1, q2] && q2 in [q1, q2];
    assert first in Elems([first]) && second in Elems([second]);
    var empty: Cache := map[];
    SelfShrinks(env, universe, root, [], [], empty);
    SelfEntry(root, [], [], empty);
    assert WithSelf(empty, root, []) == map[root := []];
    var rooted: Cache := map[root := []];
    BothWithoutBuild(env, universe, rooted, [q1, q2]);
    FoldOfTwo(env, universe, rooted, q1, q2);
  }

  lemma CombinedWithNew(cache: Cache, q: Request, f: string)
    requires q.packageId !in cache && q.features == [f]
    ensures Combined(cache, q) == [f]
  {
    assert Elems(Combined(cache, q)) == Elems([f]);
    SortedCanonical(Combined(cache, q), [f]);
  }

  // A request for features that are cached is dropped.
  lemma CachedVisit(env: Env, universe: set<string>, cache: Cache, q: Request)
    requires IsUniverse(env, universe) && IsCache(cache, universe)
    requires q.packageId in cache && Elems(q.features) <= Elems(cache[q.packageId]) <= universe
    ensures Visit(env, universe, cache, q) == Merged(cache)
  {
    assert Elems(Combined(cache, q)) == Elems(cache[q.packageId]);
    SortedCanonical(Combined(cache, q), cache[q.packageId]);
  }

  lemma VisitKeeps(env: Env, universe: set<string>, cache: Cache, q: Request, id: string, f: string)
    requires IsUniverse(env, universe) && IsCache(cache, universe) && Elems(q.features) <= universe
    requires id in cache && f in cache[id]
    ensures var r := Visit(env, universe, cache, q);
            r.Merged? ==> id in r.cache && f in r.cache[id]
  {
    assert f in Elems(cache[id]);
    var r := Visit(env, universe, cache, q);
    assert GrowsInto(universe, cache, r);
  }

  // `q` was given the feature `n` without the feature `x` that `n` enables.
  ghost predicate LacksPart(r: Resolution, q: string, n: string, x: string) {
    r.Merged? && q in r.cache && n in r.cache[q] && x !in r.cache[q]
  }

  ghost predicate HasPart(r: Resolution, q: string, x: string) {
    r.Merged? && q in r.cache && x in r.cache[q]
  }

  // The root's call, once `q` has got its own step for the first feature it is asked for.
  lemma FirstAsked(env: Env, universe: set<string>, crate: Crate, q: string, first: string, second: string)
    requires Fresh(crate, env.rootPackageId, q) && IsUniverse(env, universe)
    requires env == Table(crate, env.target, env.rootPackageId, q, first, second)
    ensures second in universe
    ensures exists cache: Cache ::
              && IsCache(cache, universe) && q in cache && cache[q] == Step(crate, [first])
              && Merge(env, universe, env.rootPackageId, [], map[]) == Visit(env, universe, cache, Request(q, [second]))
  {
    var root := env.rootPackageId;
    RootMerges(env, universe, root, q, first, second);
    var rooted: Cache := map[root := []];
    assert Elems([]) == {};
    forall p | p in PackagesOf(crate)
      ensures IsLeaf(env, p) && p != q
    {
    }
    AloneAsked(env, universe, rooted, q, first);
  }

  lemma TableIsComplete(crate: Crate, target: Target, root: string, q: string, first: string, second: string)
    requires Fresh(crate, root, q)
    ensures TableComplete(Table(crate, target, root, q, first, second))
  {
    var env := Table(crate, target, root, q, first, second);
    forall id | id in env.crates
      ensures KnownPackages(env, RuntimeDependencies(env, id))
      ensures KnownPackages(env, env.crates[id].buildDependencies)
    {
      if id == q {
        assert forall d | d in crate.dependencies + crate.buildDependencies :: d.packageId in PackagesOf(crate);
      }
    }
  }

  // If `f` brings `n` but not the `x` that `n` brings, two tables that differ in the order of
  // two dependencies resolve differently. In the first the root asks `q` for `n`, and what `n`
  // enables is not there.
  lemma OrderMatters(crate: Crate, target: Target, root: string, q: string, f: string, n: string, x: string)
    requires Fresh(crate, root, q)
    requires n in Step(crate, [f]) && x in Step(crate, [n]) && x !in Step(crate, [f])
    ensures SameUpToOrder(Table(crate, target, root, q, f, n), Table(crate, target, root, q, n, f))
    ensures LacksPart(MergePackageFeatures(Table(crate, target, root, q, f, n), []), q, n, x)
    ensures HasPart(MergePackageFeatures(Table(crate, target, root, q, n, f), []), q, x)
  {
    SwappedAskers(crate, target, root, q, f, n);
    var e1, e2 := Table(crate, target, root, q, f, n), Table(crate, target, root, q, n, f);
    UniverseExists(e1, []);
    UniverseExists(e2, []);
    NameLost(e1, Universe(e1, []), crate, q, f, n, x);
    NameKept(e2, Universe(e2, []), crate, q, f, n, x);
  }

  lemma NameLost(env: Env, universe: set<string>, crate: Crate, q: string, f: string, n: string, x: string)
    requires Fresh(crate, env.rootPackageId, q) && IsUniverse(env, universe)
    requires env == Table(crate, env.target, env.rootPackageId, q, f, n)
    requires n in Step(crate, [f]) && x !in Step(crate, [f])
    ensures LacksPart(Merge(env, universe, env.rootPackageId, [], map[]), q, n, x)
  {
    FirstAsked(env, universe, crate, q, f, n);
    var cache: Cache :| && IsCache(cache, universe) && q in cache && cache[q] == Step(crate, [f])
      && Merge(env, universe, env.rootPackageId, [], map[]) == Visit(env, universe, cache, Request(q, [n]));
    assert n in Elems(cache[q]);
    CachedVisit(env, universe, cache, Request(q, [n]));
  }

  lemma NameKept(env: Env, universe: set<string>, crate: Crate, q: string, f: string, n: string, x: string)
    requires Fresh(crate, env.rootPackageId, q) && IsUniverse(env, universe)
    requires env == Table(crate, env.target, env.rootPackageId, q, n, f)
    requires x in Step(crate, [n])
    ensures HasPart(Merge(env, universe, env.rootPackageId, [], map[]), q, x)
  {
    FirstAsked(env, universe, crate, q, n, f);
    var cache: Cache :| && IsCache(cache, universe) && q in cache && cache[q] == Step(crate, [n])
      && Merge(env, universe, env.rootPackageId, [], map[]) == Visit(env, universe, cache, Request(q, [f]));
    assert Elems([f]) <= universe;
    TableIsComplete(crate, env.target, env.rootPackageId, q, n, f);
    MergeFinds(env, universe, env.rootPackageId, [], map[]);
    VisitKeeps(env, universe, cache, Request(q, [f]), q, x);
  }

  lemma SwappedAskers(crate: Crate, target: Target, root: string, q: string, f: string, n: string)
    requires root != q
    ensures SameUpToOrder(Table(crate, target, root, q, f, n), Table(crate, target, root, q, n, f))
  {
    assert forall d :: d in [Asking(q, f), Asking(q, n)] <==> d in [Asking(q, n), Asking(q, f)];
  }

  // ---- Coherence is exactly what order independence needs ----

  // A table that holds the crate, in which every other crate is coherent and every target
  // predicate is monotone.
  ghost predicate Hosts(env: Env, id: string, crate: Crate, target: Target) {
    && id in env.crates && env.crates[id] == crate && env.target == target
    && MonotoneTargets(env)
    && forall other | other in env.crates && other != id :: Coherent(env.crates[other])
  }

  // No such table resolves differently when dependencies are listed in another order.
  ghost predicate OrderSafe(crate: Crate, target: Target) {
    forall a, b, id, features {:trigger Hosts(a, id, crate, target), SameUpToOrder(a, b), MergePackageFeatures(a, features)}
      | Hosts(a, id, crate, target) && SameUpToOrder(a, b) ::
      SameResult(MergePackageFeatures(a, features), MergePackageFeatures(b, features))
  }

  lemma CoherentUpToOrder(a: Crate, b: Crate)
    requires SameCrate(a, b) && Coherent(a)
    ensures Coherent(b)
  {
    forall d, e | d in b.dependencies && d.optional && FeatureEnables(d, e)
      ensures Elems(Step(b, [DepName(d)])) <= Elems(Step(b, [e]))
    {
      StepUpToOrder(a, b, [DepName(d)]);
      StepUpToOrder(a, b, [e]);
    }
  }

  lemma TameUpToOrder(a: Env, b: Env)
    requires SameUpToOrder(a, b) && AllCoherent(a) && MonotoneTargets(a)
    ensures AllCoherent(b) && MonotoneTargets(b)
  {
    forall id | id in b.crates
      ensures Coherent(b.crates[id]) && MonotoneDependencies(b.crates[id], b.target)
    {
      assert SameCrate(a.crates[id], b.crates[id]);
      CoherentUpToOrder(a.crates[id], b.crates[id]);
      assert MonotoneDependencies(a.crates[id], a.target);
    }
  }

  lemma CoherentIsOrderSafe(crate: Crate, target: Target)
    requires Coherent(crate)
    ensures OrderSafe(crate, target)
  {
    forall a, b, id, features | Hosts(a, id, crate, target) && SameUpToOrder(a, b)
      ensures SameResult(MergePackageFeatures(a, features), MergePackageFeatures(b, features))
    {
      assert AllCoherent(a);
      TameUpToOrder(a, b);
      OrderIndependent(a, b, features);
    }
  }

  lemma FreshNames(crate: Crate) returns (root: string, q: string)
    ensures Fresh(crate, root, q)
  {
    var n := LongerThanAll(PackagesOf(crate));
    root, q := seq(n, _ => 'r'), seq(n + 1, _ => 'q');
    assert |root| == n && |q| == n + 1;
  }

  lemma TableHosts(crate: Crate, target: Target, root: string, q: string, first: string, second: string)
    requires Fresh(crate, root, q) && MonotoneDependencies(crate, target)
    ensures Hosts(Table(crate, target, root, q, first, second), q, crate, target)
  {
    var env := Table(crate, target, root, q, first, second);
    forall id | id in env.crates && id != q
      ensures Coherent(env.crates[id]) && MonotoneDependencies(env.crates[id], target)
    {
      assert env.crates[id] == EmptyCrate()
          || env.crates[id] == EmptyCrate().(dependencies := [Asking(q, first), Asking(q, second)]);
      PlainIsTame(env.crates[id], target);
    }
    assert env.crates[q] == crate;
  }

  lemma PlainIsTame(crate: Crate, target: Target)
    requires crate.devDependencies == [] && crate.buildDependencies == []
    requires forall d | d in crate.dependencies :: !d.optional && d.target.None?
    ensures Coherent(crate) && MonotoneDependencies(crate, target)
  {
  }

  lemma IncoherentIsNotOrderSafe(crate: Crate, target: Target, d: Dependency, e: string, x: string)
    requires MonotoneDependencies(crate, target)
    requires d in crate.dependencies && d.optional && FeatureEnables(d, e)
    requires x in Step(crate, [DepName(d)]) && x !in Step(crate, [e])
    ensures !OrderSafe(crate, target)
  {
    var n := DepName(d);
    var root, q := FreshNames(crate);
    EnablingAddsName(crate, d, e);
    OrderMatters(crate, target, root, q, e, n, x);
    TableHosts(crate, target, root, q, e, n);
    var a, b := Table(crate, target, root, q, e, n), Table(crate, target, root, q, n, e);
    assert Hosts(a, q, crate, target) && SameUpToOrder(a, b);
    assert !SameResult(MergePackageFeatures(a, []), MergePackageFeatures(b, []));
  }

  // Exactly the coherent crates leave the resolution of every table that holds them
  // independent of the order of dependencies.
  lemma CoherentIffOrderSafe(crate: Crate, target: Target)
    requires MonotoneDependencies(crate, target)
    ensures Coherent(crate) <==> OrderSafe(crate, target)
  {
    if Coherent(crate) {
      CoherentIsOrderSafe(crate, target);
    } else {
      var d, e :| d in crate.dependencies && d.optional && FeatureEnables(d, e)
                  && !(Elems(Step(crate, [DepName(d)])) <= Elems(Step(crate, [e])));
      var x :| x in Elems(Step(crate, [DepName(d)])) && x !in Elems(Step(crate, [e]));
      IncoherentIsNotOrderSafe(crate, target, d, e, x);
    }
  }

  // ---- A crate of this kind, with `a = ["dep:n"]` and `n = ["x"]` ----

  function Optional(n: string): Dependency {
    Dependency(n, n, None, true, false, [], None)
  }

  function Shadowing(a: string, n: string, x: string): Crate {
    Crate(map[a := ["dep:" + n], n := [x]], [Optional(n)], [], [])
  }

  ghost predicate Distinct(a: string, n: string, x: string) {
    PlainName(a) && PlainName(n) && a != n && x != a && x != n && x != "dep:" + n
  }

  lemma NameWithDep(n: string)
    ensures FeatureEnables(Optional(n), "dep:" + n) && !PlainName("dep:" + n)
  {
    assert ("dep:" + n)[3] == ':';
  }

  // Asked for `a`, the crate also gets the feature `n` ...
  lemma StepOfA(a: string, n: string, x: string)
    requires Distinct(a, n, x)
    ensures Elems(Step(Shadowing(a, n, x), [a])) == {a, "dep:" + n, n}
  {
    var expanded := ExpandFeatures(Shadowing(a, n, x).featureMap, [a]);
    ExpandOfA(a, n, x);
    NameWithDep(n);
    assert "dep:" + n in Elems(expanded);
    AnyEnablesExact(Optional(n), expanded);
    EnableOfOne(Optional(n), expanded);
  }

  lemma EnableOfOne(d: Dependency, features: seq<string>)
    requires d.optional && AnyEnables(d, features)
    ensures Elems(EnableFeatures([d], features)) == Elems(features) + {DepName(d)}
  {
    forall f
      ensures f in EnableFeatures([d], features) <==> f in features || f == DepName(d)
    {
      EnableExact([d], features, f);
      assert d in [d];
    }
  }

  lemma ExpandOfA(a: string, n: string, x: string)
    requires Distinct(a, n, x)
    ensures Elems(ExpandFeatures(Shadowing(a, n, x).featureMap, [a])) == {a, "dep:" + n}
  {
    var m := Shadowing(a, n, x).featureMap;
    NameWithDep(n);
    assert Enables(m, "dep:" + n) == [];
    assert Enables(m, a) == ["dep:" + n];
    ExpandClosed(m, [a]);
    ExpandLeast(m, [a], {a, "dep:" + n});
    assert a in Elems([a]);
    assert "dep:" + n in Elems(Enables(m, a));
  }

  // ... which asked for on its own would bring `x`.
  lemma StepOfN(a: string, n: string, x: string, features: seq<string>)
    requires Distinct(a, n, x) && n in features
    ensures x in Step(Shadowing(a, n, x), features)
  {
    var m := Shadowing(a, n, x).featureMap;
    ExpandClosed(m, features);
    assert n in Elems(features);
    assert x in Elems(Enables(m, n));
    EnableExact([Optional(n)], ExpandFeatures(m, features), x);
  }

  lemma StepOfALacksX(a: string, n: string, x: string)
    requires Distinct(a, n, x)
    ensures n in Step(Shadowing(a, n, x), [a])
    ensures x !in Step(Shadowing(a, n, x), [a])
  {
    StepOfA(a, n, x);
    assert n in Elems(Step(Shadowing(a, n, x), [a]));
    assert x !in Elems(Step(Shadowing(a, n, x), [a]));
  }

  // So it is incoherent, and the order in which `a` and `n` are asked for matters.
  lemma ShadowingOrderMatters(a: string, n: string, x: string, target: Target, root: string, q: string)
    requires Distinct(a, n, x) && Fresh(Shadowing(a, n, x), root, q)
    ensures LacksPart(MergePackageFeatures(Table(Shadowing(a, n, x), target, root, q, a, n), []), q, n, x)
    ensures HasPart(MergePackageFeatures(Table(Shadowing(a, n, x), target, root, q, n, a), []), q, x)
  {
    StepOfALacksX(a, n, x);
    StepOfN(a, n, x, [n]);
    OrderMatters(Shadowing(a, n, x), target, root, q, a, n, x);
  }
}
