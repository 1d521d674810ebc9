/**
 `mergePackageFeatures` of Cargo.nix: a recursive traversal of the crate graph that grows a
 cache of feature lists and re-enters a crate, even one still on the call stack, whenever
 new features arrive for it.
 */
module Resolver {
  import opened Names
  import opened Expansion
  import opened Crates

  // The arguments every recursive call inherits.
  datatype Env = Env(crates: map<string, Crate>, target: Target, runTests: bool, rootPackageId: string)

  type Cache = map<string, seq<string>>

  datatype Resolution = Merged(cache: Cache) | PackageNotFound(packageId: string)

  // `cache.${packageId} or [ ]`
  function CachedFeatures(cache: Cache, id: string): seq<string> {
    if id in cache then cache[id] else []
  }

  function RuntimeDependencies(env: Env, id: string): seq<Dependency>
    requires id in env.crates
  {
    env.crates[id].dependencies
    + if env.runTests && id == env.rootPackageId then env.crates[id].devDependencies else []
  }

  function RuntimeRequests(env: Env, id: string, features: seq<string>): seq<Request>
    requires id in env.crates
  {
    EnabledRequests(RuntimeDependencies(env, id), features, env.target)
  }

  function BuildRequests(env: Env, id: string, features: seq<string>): seq<Request>
    requires id in env.crates
  {
    EnabledRequests(env.crates[id].buildDependencies, features, env.target)
  }

  function AllRequests(env: Env, id: string, features: seq<string>): seq<Request>
    requires id in env.crates
  {
    RuntimeRequests(env, id, features) + BuildRequests(env, id, features)
  }

  // ---- The finite universe of features, which bounds the recursion ----

  ghost predicate StaysWithin(env: Env, universe: set<string>, id: string, enabled: seq<string>)
    requires id in env.crates
  {
    && Elems(enabled) <= universe
    && forall q | q in AllRequests(env, id, enabled) :: Elems(q.features) <= universe
  }

  ghost predicate IsUniverse(env: Env, universe: set<string>) {
    forall id, features {:trigger StaysWithin(env, universe, id, Step(env.crates[id], features))}
      | id in env.crates && Elems(features) <= universe ::
      StaysWithin(env, universe, id, Step(env.crates[id], features))
  }

  ghost function DeclaredBy(deps: seq<Dependency>): set<string> {
    (set d | d in deps :: DepName(d)) + (set d, f | d in deps && f in d.features :: f)
  }

  ghost function DeclaredIn(crate: Crate): set<string> {
    (set f, g | f in crate.featureMap && g in crate.featureMap[f] :: g)
    + DeclaredBy(crate.dependencies) + DeclaredBy(crate.devDependencies) + DeclaredBy(crate.buildDependencies)
  }

  ghost function Suffixes(strings: set<string>): set<string> {
    set s, i | s in strings && 0 <= i <= |s| :: s[i..]
  }

  ghost function Declared(env: Env, features: seq<string>): set<string> {
    {"default"} + Elems(features) + set id, f | id in env.crates && f in DeclaredIn(env.crates[id]) :: f
  }

  // Forwarding strips prefixes, so the universe is closed under taking suffixes.
  ghost function Universe(env: Env, features: seq<string>): set<string> {
    Suffixes(Declared(env, features))
  }

  lemma SuffixOfSuffix(strings: set<string>, s: string, i: nat)
    requires s in Suffixes(strings) && i <= |s|
    ensures s[i..] in Suffixes(strings)
  {
    var t, j :| t in strings && 0 <= j <= |t| && s == t[j..];
    assert s[i..] == t[j + i..];
  }

  lemma InSuffixes(strings: set<string>)
    ensures strings <= Suffixes(strings)
  {
    forall s | s in strings
      ensures s in Suffixes(strings)
    {
      assert s[0..] == s;
    }
  }

  lemma DeclaredInUniverse(env: Env, features: seq<string>, id: string)
    requires id in env.crates
    ensures DeclaredIn(env.crates[id]) <= Universe(env, features)
    ensures "default" in Universe(env, features)
    ensures Elems(features) <= Universe(env, features)
  {
    var declared := Declared(env, features);
    assert DeclaredIn(env.crates[id]) <= declared;
    InSuffixes(declared);
  }

  lemma ForwardedInSuffixes(strings: set<string>, name: string, features: seq<string>)
    requires Elems(features) <= Suffixes(strings)
    ensures Elems(ForwardedFeatures(name, features)) <= Suffixes(strings)
  {
    forall g | g in ForwardedFeatures(name, features)
      ensures g in Suffixes(strings)
    {
      ForwardedExact(name, features, g);
      var f :| f in features && ForwardedFeature(name, f) == Common.Some(g);
      assert f in Elems(features);
      if HasPrefix(name + "/", f) {
        SuffixOfSuffix(strings, f, |name| + 1);
      } else {
        SuffixOfSuffix(strings, f, |name| + 2);
      }
    }
  }

  lemma RequestsWithin(env: Env, root: seq<string>, deps: seq<Dependency>, features: seq<string>, q: Request)
    requires DeclaredBy(deps) <= Universe(env, root) && "default" in Universe(env, root)
    requires Elems(features) <= Universe(env, root)
    requires q in EnabledRequests(deps, features, env.target)
    ensures Elems(q.features) <= Universe(env, root)
  {
    RequestMembers(deps, features, env.target, q);
    var d :| d in deps && Makes(d, features, env.target, q);
    ForwardedInSuffixes(Declared(env, root), DepName(d), features);
    assert forall f | f in d.features :: f in DeclaredBy(deps);
    assert forall f | f in q.features :: f == "default" || f in d.features || f in Elems(ForwardedFeatures(DepName(d), features));
  }

  lemma StepWithin(crate: Crate, universe: set<string>, features: seq<string>)
    requires DeclaredIn(crate) <= universe && Elems(features) <= universe
    ensures Elems(Step(crate, features)) <= universe
  {
    forall f | f in universe
      ensures Elems(Enables(crate.featureMap, f)) <= universe
    {
      assert forall g | g in Enables(crate.featureMap, f) :: g in DeclaredIn(crate);
    }
    ExpandLeast(crate.featureMap, features, universe);
    var expanded := ExpandFeatures(crate.featureMap, features);
    forall f | f in Step(crate, features)
      ensures f in universe
    {
      EnableExact(crate.dependencies, expanded, f);
      if f in expanded {
        assert f in Elems(expanded);
      } else {
        var d :| d in crate.dependencies && NamedBy(d, expanded, f);
        assert DepName(d) in DeclaredBy(crate.dependencies);
      }
    }
  }

  lemma UniverseExists(env: Env, root: seq<string>)
    ensures IsUniverse(env, Universe(env, root))
    ensures Elems(root) <= Universe(env, root)
  {
    var universe := Universe(env, root);
    forall id, features | id in env.crates && Elems(features) <= universe
      ensures StaysWithin(env, universe, id, Step(env.crates[id], features))
    {
      DeclaredInUniverse(env, root, id);
      StepWithin(env.crates[id], universe, features);
      var enabled := Step(env.crates[id], features);
      var runtime := RuntimeDependencies(env, id);
      assert DeclaredBy(runtime) <= DeclaredBy(env.crates[id].dependencies) + DeclaredBy(env.crates[id].devDependencies);
      forall q | q in AllRequests(env, id, enabled)
        ensures Elems(q.features) <= universe
      {
        if q in RuntimeRequests(env, id, enabled) {
          RequestsWithin(env, root, runtime, enabled, q);
        } else {
          RequestsWithin(env, root, env.crates[id].buildDependencies, enabled, q);
        }
      }
    }
    InSuffixes(Declared(env, root));
  }

  // ---- The cache ----

  // Cached lists are canonical: only `mergePackageFeatures` writes them.
  ghost predicate IsCache(cache: Cache, universe: set<string>) {
    forall id {:trigger cache[id]} | id in cache :: StrictlySorted(cache[id]) && Elems(cache[id]) <= universe
  }

  ghost predicate Grows(before: Cache, after: Cache) {
    forall id {:trigger id in before} | id in before :: id in after && Elems(before[id]) <= Elems(after[id])
  }

  // What the cache does not hold yet: a crate, or a feature of a crate.
  ghost function Missing(env: Env, universe: set<string>, cache: Cache): set<(string, Common.Option<string>)> {
    (set id | id in env.crates && id !in cache :: (id, Common.None))
    + set id, f | id in env.crates && f in universe && (id !in cache || f !in cache[id]) :: (id, Common.Some(f))
  }

  lemma MissingShrinks(env: Env, universe: set<string>, before: Cache, after: Cache)
    requires Grows(before, after)
    ensures Missing(env, universe, after) <= Missing(env, universe, before)
  {
    forall m | m in Missing(env, universe, after)
      ensures m in Missing(env, universe, before)
    {
      if m.1.Some? && m.0 in before {
        assert Elems(before[m.0]) <= Elems(after[m.0]);
      }
    }
  }

  lemma MissingShrinksAt(env: Env, universe: set<string>, before: Cache, after: Cache, id: string)
    requires Grows(before, after)
    requires id in env.crates && id in after && Elems(after[id]) <= universe
    requires id in before ==> Elems(before[id]) != Elems(after[id])
    ensures Missing(env, universe, after) < Missing(env, universe, before)
  {
    MissingShrinks(env, universe, before, after);
    if id !in before {
      assert (id, Common.None) in Missing(env, universe, before) - Missing(env, universe, after);
    } else {
      var f :| f in Elems(after[id]) && f !in Elems(before[id]);
      assert (id, Common.Some(f)) in Missing(env, universe, before) - Missing(env, universe, after);
    }
  }

  // ---- The traversal ----

  // What a recursive call may assume of its arguments: it is only made for features that
  // extend what is cached.
  ghost predicate Asks(cache: Cache, id: string, features: seq<string>) {
    id in cache ==> Elems(cache[id]) < Elems(features)
  }

  function WithSelf(cache: Cache, id: string, enabled: seq<string>): Cache {
    cache[id := SortedUnique(CachedFeatures(cache, id) + enabled)]
  }

  lemma StepKeeps(crate: Crate, features: seq<string>)
    ensures Elems(features) <= Elems(Step(crate, features))
    ensures StrictlySorted(Step(crate, features))
  {
    ExpandClosed(crate.featureMap, features);
    var expanded := ExpandFeatures(crate.featureMap, features);
    forall f | f in Elems(features)
      ensures f in Elems(Step(crate, features))
    {
      assert f in Elems(expanded);
      EnableExact(crate.dependencies, expanded, f);
    }
  }

  // The entry a call writes for its own crate holds exactly the features enabled there.
  lemma SelfEntry(id: string, features: seq<string>, enabled: seq<string>, cache: Cache)
    requires Asks(cache, id, features)
    requires Elems(features) <= Elems(enabled) && StrictlySorted(enabled)
    ensures WithSelf(cache, id, enabled)[id] == enabled
    ensures Grows(cache, WithSelf(cache, id, enabled))
  {
    var cached := CachedFeatures(cache, id);
    assert Elems(cached + enabled) == Elems(cached) + Elems(enabled) == Elems(enabled);
    SortedCanonical(SortedUnique(cached + enabled), enabled);
  }

  lemma SelfShrinks(
      env: Env, universe: set<string>, id: string, features: seq<string>, enabled: seq<string>, cache: Cache)
    requires IsCache(cache, universe)
    requires id in env.crates && Asks(cache, id, features)
    requires Elems(features) <= Elems(enabled) <= universe && StrictlySorted(enabled)
    ensures var self := WithSelf(cache, id, enabled);
            && IsCache(self, universe)
            && Grows(cache, self)
            && Missing(env, universe, self) < Missing(env, universe, cache)
  {
    SelfEntry(id, features, enabled, cache);
    MissingShrinksAt(env, universe, cache, WithSelf(cache, id, enabled), id);
  }

  // What a call may rely on for the features it enables and the requests it makes.
  lemma CallWithin(env: Env, universe: set<string>, id: string, features: seq<string>)
    requires IsUniverse(env, universe) && id in env.crates && Elems(features) <= universe
    ensures var enabled := Step(env.crates[id], features);
            && Elems(features) <= Elems(enabled) <= universe && StrictlySorted(enabled)
            && RequestsBounded(RuntimeRequests(env, id, enabled), universe)
            && RequestsBounded(BuildRequests(env, id, enabled), universe)
  {
    StepKeeps(env.crates[id], features);
    assert StaysWithin(env, universe, id, Step(env.crates[id], features));
  }

  ghost predicate RequestsBounded(requests: seq<Request>, universe: set<string>) {
    forall q | q in requests :: Elems(q.features) <= universe
  }

  ghost predicate GrowsInto(universe: set<string>, before: Cache, r: Resolution) {
    r.Merged? ==> IsCache(r.cache, universe) && Grows(before, r.cache)
  }

  // `mergePackageFeatures`. The ghost universe only bounds the recursion.
  function Merge(env: Env, ghost universe: set<string>, id: string, features: seq<string>, cache: Cache): (r: Resolution)
    requires IsUniverse(env, universe) && IsCache(cache, universe)
    requires Elems(features) <= universe && Asks(cache, id, features)
    ensures GrowsInto(universe, cache, r)
    decreases Missing(env, universe, cache), 0, 0
  {
    if id !in env.crates then PackageNotFound(id)
    else
      var enabled := Step(env.crates[id], features);
      CallWithin(env, universe, id, features);
      var self := WithSelf(cache, id, enabled);
      SelfShrinks(env, universe, id, features, enabled, cache);
      ResolveBoth(env, universe, self, RuntimeRequests(env, id, enabled), BuildRequests(env, id, enabled))
  }

  // `cacheWithAll` after `cacheWithDependencies`: the dependencies, then the build dependencies.
  function ResolveBoth(
      env: Env, ghost universe: set<string>, cache: Cache, runtime: seq<Request>, build: seq<Request>): (r: Resolution)
    requires IsUniverse(env, universe) && IsCache(cache, universe)
    requires RequestsBounded(runtime, universe) && RequestsBounded(build, universe)
    ensures GrowsInto(universe, cache, r)
    decreases Missing(env, universe, cache), 2, 0
  {
    var r := FoldRequests(env, universe, cache, runtime);
    if r.PackageNotFound? then r
    else
      MissingShrinks(env, universe, cache, r.cache);
      FoldRequests(env, universe, r.cache, build)
  }

  // `foldOverCache`
  function FoldRequests(env: Env, ghost universe: set<string>, cache: Cache, requests: seq<Request>): (r: Resolution)
    requires IsUniverse(env, universe) && IsCache(cache, universe)
    requires RequestsBounded(requests, universe)
    ensures GrowsInto(universe, cache, r)
    decreases Missing(env, universe, cache), 1, |requests|
  {
    if requests == [] then Merged(cache)
    else
      var r := Visit(env, universe, cache, requests[0]);
      if r.PackageNotFound? then r
      else
        MissingShrinks(env, universe, cache, r.cache);
        FoldRequests(env, universe, r.cache, requests[1..])
  }

  function Combined(cache: Cache, q: Request): (r: seq<string>)
    ensures StrictlySorted(r)
    ensures Elems(r) == Elems(CachedFeatures(cache, q.packageId)) + Elems(q.features)
  {
    assert Elems(CachedFeatures(cache, q.packageId) + q.features)
        == Elems(CachedFeatures(cache, q.packageId)) + Elems(q.features);
    SortedUnique(CachedFeatures(cache, q.packageId) + q.features)
  }

  // One step of the fold: recurse unless the crate is cached with these very features.
  function Visit(env: Env, ghost universe: set<string>, cache: Cache, q: Request): (r: Resolution)
    requires IsUniverse(env, universe) && IsCache(cache, universe)
    requires Elems(q.features) <= universe
    ensures GrowsInto(universe, cache, r)
    decreases Missing(env, universe, cache), 1, 0
  {
    var combined := Combined(cache, q);
    if q.packageId in cache && cache[q.packageId] == combined then Merged(cache)
    else
      assert Asks(cache, q.packageId, combined) by {
        if q.packageId in cache && Elems(cache[q.packageId]) == Elems(combined) {
          SortedCanonical(cache[q.packageId], combined);
        }
      }
      Merge(env, universe, q.packageId, combined, cache)
  }

  // A crate that asks for nothing only writes its own entry.
  lemma MergeOfLeaf(env: Env, universe: set<string>, id: string, features: seq<string>, cache: Cache)
    requires IsUniverse(env, universe) && IsCache(cache, universe)
    requires Elems(features) <= universe && Asks(cache, id, features)
    requires id in env.crates
    requires RuntimeRequests(env, id, Step(env.crates[id], features)) == []
    requires BuildRequests(env, id, Step(env.crates[id], features)) == []
    ensures Merge(env, universe, id, features, cache) == Merged(cache[id := Step(env.crates[id], features)])
  {
    var enabled := Step(env.crates[id], features);
    CallWithin(env, universe, id, features);
    SelfEntry(id, features, enabled, cache);
    SelfShrinks(env, universe, id, features, enabled, cache);
    assert WithSelf(cache, id, enabled) == cache[id := enabled];
    assert ResolveBoth(env, universe, WithSelf(cache, id, enabled), [], []) == Merged(WithSelf(cache, id, enabled));
  }

  lemma FoldOfOne(env: Env, universe: set<string>, cache: Cache, q: Request)
    requires IsUniverse(env, universe) && IsCache(cache, universe) && Elems(q.features) <= universe
    ensures FoldRequests(env, universe, cache, [q]) == Visit(env, universe, cache, q)
  {
    var r := Visit(env, universe, cache, q);
    assert [q][1..] == [];
    if r.Merged? {
      assert FoldRequests(env, universe, r.cache, []) == Merged(r.cache);
    }
  }

  lemma FoldOfTwo(env: Env, universe: set<string>, cache: Cache, q1: Request, q2: Request)
    requires IsUniverse(env, universe) && IsCache(cache, universe)
    requires Elems(q1.features) <= universe && Elems(q2.features) <= universe
    ensures var r1 := Visit(env, universe, cache, q1);
            FoldRequests(env, universe, cache, [q1, q2]) == if r1.Merged? then Visit(env, universe, r1.cache, q2) else r1
  {
    var r1 := Visit(env, universe, cache, q1);
    assert [q1, q2][1..] == [q2];
    if r1.Merged? { FoldOfOne(env, universe, r1.cache, q2); }
  }

  lemma BothWithoutBuild(env: Env, universe: set<string>, cache: Cache, runtime: seq<Request>)
    requires IsUniverse(env, universe) && IsCache(cache, universe) && RequestsBounded(runtime, universe)
    ensures ResolveBoth(env, universe, cache, runtime, []) == FoldRequests(env, universe, cache, runtime)
  {
    var r := FoldRequests(env, universe, cache, runtime);
    if r.Merged? {
      assert FoldRequests(env, universe, r.cache, []) == Merged(r.cache);
    }
  }

  // A crate that asks one thing, of one build dependency.
  lemma MergeOfOne(env: Env, universe: set<string>, id: string, features: seq<string>, cache: Cache, q: Request)
    requires IsUniverse(env, universe) && IsCache(cache, universe)
    requires Elems(features) <= universe && Asks(cache, id, features)
    requires id in env.crates
    requires RuntimeRequests(env, id, Step(env.crates[id], features)) == []
    requires BuildRequests(env, id, Step(env.crates[id], features)) == [q]
    ensures Elems(q.features) <= universe
    ensures var self := cache[id := Step(env.crates[id], features)];
            IsCache(self, universe) && Merge(env, universe, id, features, cache) == Visit(env, universe, self, q)
  {
    var enabled := Step(env.crates[id], features);
    CallWithin(env, universe, id, features);
    SelfEntry(id, features, enabled, cache);
    SelfShrinks(env, universe, id, features, enabled, cache);
    assert WithSelf(cache, id, enabled) == cache[id := enabled];
    assert q in [q];
    FoldOfOne(env, universe, WithSelf(cache, id, enabled), q);
    assert FoldRequests(env, universe, WithSelf(cache, id, enabled), []) == Merged(WithSelf(cache, id, enabled));
  }

  // The call a user makes: no cache yet.
  function MergePackageFeatures(env: Env, features: seq<string>): Resolution {
    UniverseExists(env, features);
    Merge(env, Universe(env, features), env.rootPackageId, features, map[])
  }
}
