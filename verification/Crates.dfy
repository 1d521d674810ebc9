/**
 Crate configurations and the features of their dependencies: `filterEnabledDependencies`,
 `doesFeatureEnableDependency`, `enableFeatures` and `dependencyFeatures` of Cargo.nix.
 Attributes read with a default (`or`) hold the value after defaulting.
 */
module Crates {
  import opened Common
  import opened Names
  import opened Expansion

  // The platform attributes a target predicate reads; `test` is the one that the resolver
  // and the builder set differently.
  datatype Target = Target(test: bool, attrs: map<string, string>)

  type TargetFunc = (Target, seq<string>) -> bool

  datatype Dependency = Dependency(
    name: string,
    packageId: string,
    rename: Option<string>,
    optional: bool,
    usesDefaultFeatures: bool,
    features: seq<string>,
    target: Option<TargetFunc>)

  datatype Crate = Crate(
    featureMap: FeatureMap,
    dependencies: seq<Dependency>,
    devDependencies: seq<Dependency>,
    buildDependencies: seq<Dependency>)

  // What one crate asks of another.
  datatype Request = Request(packageId: string, features: seq<string>)

  // `dependency.rename or dependency.name`
  function DepName(d: Dependency): string {
    match d.rename
    case Some(r) => r
    case None => d.name
  }

  predicate HasPrefix(prefix: string, s: string) {
    |prefix| <= |s| && s[..|prefix|] == prefix
  }

  // `doesFeatureEnableDependency`
  predicate FeatureEnables(d: Dependency, feature: string) {
    var name := DepName(d);
    feature == name || feature == "dep:" + name || HasPrefix(name + "/", feature)
  }

  predicate AnyEnables(d: Dependency, features: seq<string>) {
    features != [] && (FeatureEnables(d, features[0]) || AnyEnables(d, features[1..]))
  }

  lemma AnyEnablesExact(d: Dependency, features: seq<string>)
    ensures AnyEnables(d, features) <==> exists f :: f in features && FeatureEnables(d, f)
  {
  }

  predicate TargetHolds(d: Dependency, target: Target, features: seq<string>) {
    match d.target
    case Some(f) => f(target, features)
    case None => true
  }

  predicate DependencyEnabled(d: Dependency, features: seq<string>, target: Target) {
    TargetHolds(d, target, features) && (!d.optional || AnyEnables(d, features))
  }

  // `filterEnabledDependencies`
  function FilterEnabled(deps: seq<Dependency>, features: seq<string>, target: Target): seq<Dependency> {
    if deps == [] then []
    else
      (if DependencyEnabled(deps[0], features, target) then [deps[0]] else [])
      + FilterEnabled(deps[1..], features, target)
  }

  function OptionalNames(deps: seq<Dependency>, features: seq<string>): seq<string> {
    if deps == [] then []
    else OwnName(deps[0], features) + OptionalNames(deps[1..], features)
  }

  function OwnName(d: Dependency, features: seq<string>): seq<string> {
    if d.optional && AnyEnables(d, features) then [DepName(d)] else []
  }

  predicate NamedBy(d: Dependency, features: seq<string>, n: string) {
    d.optional && AnyEnables(d, features) && n == DepName(d)
  }

  // `enableFeatures`
  function EnableFeatures(deps: seq<Dependency>, features: seq<string>): seq<string> {
    SortedUnique(features + OptionalNames(deps, features))
  }

  // `extractFeature`: the feature of the dependency that a feature of the crate forwards to.
  function ForwardedFeature(name: string, feature: string): Option<string> {
    if HasPrefix(name + "/", feature) then Some(feature[|name| + 1..])
    else if HasPrefix(name + "?/", feature) then Some(feature[|name| + 2..])
    else None
  }

  function ForwardedFeatures(name: string, features: seq<string>): seq<string> {
    if features == [] then []
    else
      (match ForwardedFeature(name, features[0])
       case Some(g) => [g]
       case None => [])
      + ForwardedFeatures(name, features[1..])
  }

  lemma {:induction false} ForwardedExact(name: string, features: seq<string>, g: string)
    ensures g in ForwardedFeatures(name, features) <==>
            exists f :: f in features && ForwardedFeature(name, f) == Some(g)
  {
    if features != [] {
      assert features == [features[0]] + features[1..];
      ForwardedExact(name, features[1..], g);
    }
  }

  // `dependencyFeatures`
  function DependencyFeatures(features: seq<string>, d: Dependency): seq<string> {
    (if d.usesDefaultFeatures then ["default"] else [])
    + d.features
    + ForwardedFeatures(DepName(d), features)
  }

  // `map depWithResolvedFeatures enabledDependencies`
  function RequestsOf(deps: seq<Dependency>, features: seq<string>): seq<Request> {
    if deps == [] then []
    else [Request(deps[0].packageId, DependencyFeatures(features, deps[0]))] + RequestsOf(deps[1..], features)
  }

  function EnabledRequests(deps: seq<Dependency>, features: seq<string>, target: Target): seq<Request> {
    RequestsOf(FilterEnabled(deps, features, target), features)
  }

  // That `d` is why a crate with these features makes this request.
  predicate Makes(d: Dependency, features: seq<string>, target: Target, q: Request) {
    DependencyEnabled(d, features, target) && q == Request(d.packageId, DependencyFeatures(features, d))
  }

  lemma {:induction false} RequestMembers(deps: seq<Dependency>, features: seq<string>, target: Target, q: Request)
    ensures q in EnabledRequests(deps, features, target) <==> exists d :: d in deps && Makes(d, features, target, q)
  {
    if deps != [] {
      RequestMembers(deps[1..], features, target, q);
      assert deps[0] in deps && deps == [deps[0]] + deps[1..];
      var rest := FilterEnabled(deps[1..], features, target);
      if DependencyEnabled(deps[0], features, target) {
        assert FilterEnabled(deps, features, target) == [deps[0]] + rest;
        assert ([deps[0]] + rest)[1..] == rest;
      } else {
        assert FilterEnabled(deps, features, target) == rest;
      }
      if d :| d in deps && Makes(d, features, target, q) {
        assert d == deps[0] || d in deps[1..];
      }
    }
  }

  // The features a crate is built with when it is asked for `features`.
  function Step(crate: Crate, features: seq<string>): seq<string> {
    EnableFeatures(crate.dependencies, ExpandFeatures(crate.featureMap, features))
  }

  lemma {:induction false} OptionalNamesExact(deps: seq<Dependency>, features: seq<string>, n: string)
    ensures n in OptionalNames(deps, features) <==> exists d :: d in deps && NamedBy(d, features, n)
  {
    if deps != [] {
      OptionalNamesExact(deps[1..], features, n);
      assert n in OwnName(deps[0], features) <==> NamedBy(deps[0], features, n);
      assert deps[0] in deps && deps == [deps[0]] + deps[1..];
      if d :| d in deps && NamedBy(d, features, n) {
        assert d == deps[0] || d in deps[1..];
      }
    }
  }

  lemma EnableExact(deps: seq<Dependency>, features: seq<string>, f: string)
    ensures f in EnableFeatures(deps, features) <==>
            f in features || exists d :: d in deps && NamedBy(d, features, f)
  {
    OptionalNamesExact(deps, features, f);
    var all := features + OptionalNames(deps, features);
    assert f in EnableFeatures(deps, features) <==> f in Elems(all);
  }

  lemma PrefixAt(prefix: string, s: string, i: nat)
    requires HasPrefix(prefix, s) && i < |prefix|
    ensures s[i] == prefix[i]
  {
    assert s[..|prefix|][i] == s[i];
  }

  // A name that can be told apart from the `dep:name`, `name/f` and `name?/f` forms.
  predicate PlainName(name: string) {
    '/' !in name && ':' !in name && '?' !in name
  }

  predicate PlainNames(deps: seq<Dependency>) {
    forall i | 0 <= i < |deps| :: PlainName(DepName(deps[i]))
  }

  // Enabling an optional dependency by its own name enables nothing else.
  lemma PlainNameEnablesItself(d: Dependency, name: string)
    requires PlainName(name) && FeatureEnables(d, name)
    ensures name == DepName(d)
  {
    if HasPrefix(DepName(d) + "/", name) {
      PrefixAt(DepName(d) + "/", name, |DepName(d)|);
    }
    assert ("dep:" + DepName(d))[3] == ':';
  }

  lemma EnableFeaturesIdempotent(deps: seq<Dependency>, features: seq<string>)
    requires PlainNames(deps)
    ensures EnableFeatures(deps, EnableFeatures(deps, features)) == EnableFeatures(deps, features)
  {
    var once := EnableFeatures(deps, features);
    var twice := EnableFeatures(deps, once);
    forall f
      ensures f in twice <==> f in once
    {
      EnableExact(deps, once, f);
      EnableExact(deps, features, f);
      if d :| d in deps && NamedBy(d, once, f) {
        AnyEnablesExact(d, once);
        AnyEnablesExact(d, features);
        var e :| e in once && FeatureEnables(d, e);
        EnableExact(deps, features, e);
        if e in features {
          assert AnyEnables(d, features) && NamedBy(d, features, f);
        } else {
          PlainNameEnablesItself(d, e);
        }
      }
    }
    assert Elems(twice) == Elems(once);
    SortedCanonical(twice, once);
  }

  // The weak form `name?/feature` of Cargo's dependency features.
  ghost predicate WeakFeature(feature: string) {
    exists n, f | PlainName(n) :: feature == n + "?/" + f
  }

  lemma WeakNeverEnables(d: Dependency, feature: string)
    requires PlainName(DepName(d)) && WeakFeature(feature)
    ensures !FeatureEnables(d, feature)
  {
    var n, f :| PlainName(n) && feature == n + "?/" + f;
    var name := DepName(d);
    assert feature[|n|] == '?' && feature[|n| + 1] == '/';
    if HasPrefix(name + "/", feature) {
      PrefixAt(name + "/", feature, |name|);
      if |name| >= |n| { PrefixAt(name + "/", feature, |n|); }
    }
  }

  // So adding weak features enables no dependency that was not enabled.
  lemma WeakFeaturesEnableNothing(d: Dependency, features: seq<string>, weak: seq<string>)
    requires PlainName(DepName(d)) && forall f | f in weak :: WeakFeature(f)
    ensures AnyEnables(d, features + weak) == AnyEnables(d, features)
  {
    forall f | f in weak
      ensures !FeatureEnables(d, f)
    {
      WeakNeverEnables(d, f);
    }
    AnyEnablesExact(d, features + weak);
    AnyEnablesExact(d, features);
  }

  // Weak features alone keep no optional dependency ...
  lemma {:induction false} WeakFeaturesKeepNothing(
      deps: seq<Dependency>, features: seq<string>, weak: seq<string>, target: Target)
    requires PlainNames(deps)
    requires forall f | f in weak :: WeakFeature(f)
    requires forall d | d in deps :: TargetHolds(d, target, features + weak) == TargetHolds(d, target, features)
    ensures FilterEnabled(deps, features + weak, target) == FilterEnabled(deps, features, target)
  {
    if deps != [] {
      var d := deps[0];
      assert d in deps && PlainName(DepName(d));
      WeakFeaturesEnableNothing(d, features, weak);
      assert forall d | d in deps[1..] :: d in deps;
      WeakFeaturesKeepNothing(deps[1..], features, weak, target);
    }
  }

  // ... but each is forwarded to its dependency once that is kept for another reason.
  lemma WeakFeatureForwarded(d: Dependency, features: seq<string>, f: string)
    requires DepName(d) + "?/" + f in features
    ensures f in DependencyFeatures(features, d)
  {
    var n := DepName(d);
    var feature := n + "?/" + f;
    assert feature[|n|] == '?';
    assert !HasPrefix(n + "/", feature) by {
      if HasPrefix(n + "/", feature) { PrefixAt(n + "/", feature, |n|); }
    }
    assert feature[..|n| + 2] == n + "?/";
    assert feature[|n| + 2..] == f;
    assert ForwardedFeature(n, feature) == Some(f);
    ForwardedExact(n, features, f);
  }
}
