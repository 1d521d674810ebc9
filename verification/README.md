# Verified models of the Kafka operator's algorithms

This project models four parts of the Stackable operator for Apache Kafka in Dafny and proves
what they promise. `dafny verify dfyconfig.toml` checks everything.

* **Feature resolver** (`Cargo.nix`). From a root crate, `mergePackageFeatures` walks a possibly
  cyclic crate graph over a growing cache and decides with which features each crate is built.
  `Names`, `Expansion`, `Crates` and `Resolver` hold the functions; `Fixpoint`, `LeastSolution`,
  `Completion`, `FeatureOrder` and `BuildCoverage` say what the result is, `ResolutionMeaning` in terms
  of the crate table alone.
* **Reconcile pass** (`kafka_controller.rs`). `Reconcile` has `reconcile_kafka` as a method over an
  API server, with any write able to fail, and its specification on values. `PassTheorems` and
  `WriteOrder` are about one pass, `IterationOrder` about the order of role groups, `Runs` about any
  sequence of passes over changing specifications, `PassMeaning` about how a pass ends.
* **Security, listeners, ports and mounts** (`security.rs`, `listener.rs`, `authentication.rs`,
  `kerberos.rs`). `Security`, `Listeners`, `BrokerConfig` and `Pod` each derive the same facts from the
  same settings; they, `MountCoverage` and `Probe` prove where these derivations agree. `BrokerMeaning` and `PodMeaning`
  say what comes out, in the names, numbers and texts that Kafka and Kubernetes get.
* **Names, discovery, release file** (`lib.rs`, `discovery.rs`, `scripts/run-tests`). `Pods`,
  `Discovery`, `ReleaseFile` and `ReleaseTheorems`, over the string lemmas of `Text`.

Code that only computes is a function here; code that updates maps, vectors, builders or the API server
is a method, proved equal to a function on values, about which the lemmas speak.

## Results that are not what one might expect

* Under Kerberos the readiness probe does not run kcat: the list of words is executed as it is, and
  `bash -c` takes only the word after `-c`, which exports the realm, as its script; `/stackable/kcat` and
  all that follows become its parameters. So the probe says nothing about the broker. kcat runs exactly
  when Kerberos is off (`Probe.ProbeRunsKcatIff`, `Probe.KerberosProbeRunsNoKcat`).
* Expanding features and then enabling optional dependencies is not idempotent: enabling may add a
  name that itself has an entry in the feature map, which is then not expanded. A later request for that
  name finds it cached and is dropped. So the result can depend on the order of dependencies and can lack
  what a requested feature enables (`FeatureOrder.OrderMatters`). This is exact: a crate's operator is
  idempotent if and only if the crate is coherent (`LeastSolution.IdempotentIffCoherent`), and if and only
  if it is coherent does every table that holds it, with its other crates coherent, resolve to the same
  result in every order (`FeatureOrder.CoherentIffOrderSafe`). The fixpoint property holds without this
  condition.
* Coherence is the exception: a crate is incoherent as soon as the feature map has an entry for the name
  of an optional dependency (`Completion.CoherentIffNothingListed`), even the implicit `n = ["dep:n"]`. Of
  the 70 crates with optional dependencies in the table at Cargo.nix:85-10548, 49 have such an entry. In
  46 of these it is no more than the implicit one, and no target predicate of the table reads features.
  For such crates the result is the least solution up to one more step, and order decides about nothing
  but features `dep:n`, which ask for nothing (`Completion.CompletionIsLeastSolution`,
  `Completion.OrderDecidesMarkers`). The other three, hyper-util, rustls and time, list more for such a
  name, and there a part of a request that matters can be lost: hyper-util (Cargo.nix:2878-2972) asked for
  `client-legacy` brings `tokio`, so that a later request for just `tokio` is dropped and `tokio/net` is not
  there. They are covered where their features come out complete.
* With `runTests`, features are merged for a target with `test = true`, while the builder filters
  dependencies for the target with `test = false`. A dependency is safe in every build whose other
  dependencies are, if and only if its predicate holds for the merge's target whenever the builder follows
  it (`BuildCoverage.HarmlessIffAgrees`); otherwise it can be built with the `or [ ]` fallback.
* Kerberos with an empty internal secret class is accepted, and then the INTERNAL listener is mapped to
  SSL with no key store of its own (`BrokerConfig.TlsCompleteIff`).
* TLS authentication with neither a client certificate secret class nor a server secret class is
  accepted, and then the server and kcat store directories are named but not mounted
  (`MountCoverage.FilesMountedIff`).
* Under Kerberos the CLIENT and BOOTSTRAP listeners advertise the same endpoint
  (`Listeners.AdvertisedEndpointsDistinctIff`).
* Role groups are iterated in hash-map order, and that order is visible in the discovery ConfigMaps. A
  second pass over an unchanged cluster is idle in every order exactly when the lists of hosts of any two
  groups commute, as they do when all but one are empty (`IterationOrder.IdleIffHostsCommute`).
* A successful pass publishes an empty list of servers exactly when no Listener had an address before it
  (`Runs.PublishesNothingIff`), so the first pass over an empty cluster does.
* The patcher searches for names as parts of lines. An operator whose name is part of another product's
  name patches or skips that product as well (`ReleaseTheorems.OverridesAsAskedIff`,
  `ReleaseTheorems.SkipsAsAskedIff`). Against its documentation (scripts/run-tests:185-203), it accepts
  `zoo` and patches `zookeeper` (`ReleaseTheorems.PartOfANameIsAccepted`), and with `kafka` listed before
  `kafka-connect` it reports the latter as not found although it is there
  (`ReleaseTheorems.LaterNameIsDenied`). When errors are as documented is exact
  (`ReleaseTheorems.PatchErrorAsAskedIff`).
* An address with a comma is published but cannot be read back (`Discovery.PublishedDecodesIff`).

## Model

| member | source | states |
|---|---|---|
| `Names.AttrNames` | Cargo.nix:11203 | the names of an attribute set: each once, in strictly increasing order |
| `Names.LessIff` | Cargo.nix:11205 | the order: a proper prefix comes first, or the string with the smaller character where they first differ |
| `Names.SortedUnique` | Cargo.nix:11198-11205 | strictly sorted, with exactly the elements of the input |
| `Names.SortedCanonical` | Cargo.nix:11046 | a strictly sorted list is determined by its elements, so comparing cached lists compares sets |
| `Names.SortedUniqueCanonical` | Cargo.nix:11044-11046 | two feature lists get the same canonical list if and only if they have the same elements |
| `Expansion.Unseen` | Cargo.nix:11130 | what is pushed are exactly the enabled features that have not been seen |
| `ResolutionMeaning.EnablesIff` | Cargo.nix:11130 | a feature enables what the feature map lists for it, and nothing if it lists nothing |
| `Expansion.WorklistShrinks` | Cargo.nix:11118-11135 | each pop shrinks the pair (features not yet seen, seen entries in the queue) lexicographically, cycles and duplicates included: termination |
| `Expansion.WorklistSound` | Cargo.nix:11118-11135 | the worklist, from any state, yields only features reachable from its queue |
| `Expansion.WorklistClosed` | Cargo.nix:11118-11135 | the worklist yields its whole queue and is closed under the feature map up to what had been seen |
| `Expansion.ExpandExact` | Cargo.nix:11114-11137 | the result is strictly sorted and is exactly what chains of feature-map entries reach from the inputs, for every finite map |
| `Expansion.ExpandClosed` | Cargo.nix:11114-11137 | the inputs stay and the result is closed under the feature map |
| `Expansion.ExpandLeast` | Cargo.nix:11114-11137 | the result is below every closed set that has the inputs |
| `Expansion.ExpandPointwise` | Cargo.nix:11114-11137 | expanding a list is expanding its features one by one |
| `Crates.ForwardedExact` | Cargo.nix:11177-11193 | a feature is forwarded if and only if some feature of the dependent is that feature behind `name/` or `name?/` |
| `Crates.EnableExact` | Cargo.nix:11144-11161 | the features, and the names of exactly the optional dependencies that one of them enables |
| `Crates.EnableFeaturesIdempotent` | Cargo.nix:11098-11161 | enabling a second time adds nothing, for dependency names without '/', ':' or '?' |
| `Crates.WeakNeverEnables` | Cargo.nix:11098-11106 | a weak feature `name?/f` enables no dependency with a plain name |
| `Crates.WeakFeaturesEnableNothing` | Cargo.nix:11092-11106 | adding weak features enables no dependency with a plain name that was not enabled |
| `Crates.WeakFeaturesKeepNothing` | Cargo.nix:11079-11106 | so, where target predicates do not read the weak features, they never make the filter keep an optional dependency |
| `Crates.WeakFeatureForwarded` | Cargo.nix:11180-11191 | `name?/f` is forwarded as `f` to the dependency once it is kept |
| `Resolver.UniverseExists` | Cargo.nix:11019-11054 | the finite set of suffixes of all names in play holds every feature a resolution can meet, however prefixes are stripped |
| `Resolver.StepKeeps` | Cargo.nix:11020-11021 | enabling after expanding keeps the features it starts from and gives a canonical list |
| `Resolver.SelfEntry` | Cargo.nix:11055-11062 | the entry a call writes for its own crate is exactly what it enables, and no other entry shrinks |
| `Resolver.SelfShrinks` | Cargo.nix:11039-11062 | before any recursive call the set of missing crates and features has become strictly smaller: termination on cyclic graphs |
| `Resolver.Merge` | Cargo.nix:10998-11076 | cached lists stay canonical and no entry of the cache it was given is lost or shrinks |
| `Resolver.ResolveBoth` | Cargo.nix:11063-11076 | the same over the dependencies followed by the build dependencies |
| `Resolver.FoldRequests` | Cargo.nix:11037-11054 | the same over a fold of requests |
| `Resolver.Visit` | Cargo.nix:11041-11053 | the same over one request, dropped when the cache holds it; a recursive call is made only for features that strictly extend the cached ones |
| `Fixpoint.MergeSettles` | Cargo.nix:10998-11076 | for every re-entrant call: each crate whose entry changed is stepped and closed under its enabled dependencies in the result, and the call's own features are there |
| `Fixpoint.MergeKeepsStep` | Cargo.nix:11055-11076 | a call ends with at least what the features it was made with enable |
| `Fixpoint.ResolutionIsFixpoint` | Cargo.nix:10998-11076 | in the result of a root call the root has its features, and every crate is closed under its enabled dependencies, its list canonical and made by its own step |
| `Fixpoint.CompleteTableResolves` | Cargo.nix:11019 | if every named package is in the table, no package is missing |
| `ResolutionMeaning.FeatureEnablesIff` | Cargo.nix:11098-11106 | a feature enables a dependency if and only if it is the name it goes by, its rename if it has one, or that name behind `dep:` or before a slash |
| `ResolutionMeaning.EnabledIff` | Cargo.nix:11079-11096 | a dependency is kept if and only if its target predicate, if any, holds and, if it is optional, some feature enables it |
| `ResolutionMeaning.DependencyFeaturesIff` | Cargo.nix:11168-11195 | a dependency is asked for exactly "default" if it uses default features, its explicit features, and each `g` for which `name/g` or `name?/g` is a feature of the dependent |
| `ResolutionMeaning.StepIff` | Cargo.nix:11020-11021 | a crate has exactly the features that the feature map leads to, and the names of the optional dependencies that one of these enables |
| `ResolutionMeaning.ClosedIffServed` | Cargo.nix:11022-11074 | a crate's requests are satisfied if and only if each of its enabled dependencies (normal, build, and dev of the root with tests) has every feature it is asked for |
| `ResolutionMeaning.SolutionIff` | Cargo.nix:10998-11076 | the assignments of the minimality theorems are those that have the root features, the features each crate's own bring, and serve each enabled dependency |
| `ResolutionMeaning.ResolutionServes` | Cargo.nix:10998-11076 | the result has the root features, serves every enabled dependency, and each crate has exactly what some list of features brings in it |
| `ResolutionMeaning.EnabledDependencyIsServed` | Cargo.nix:11022-11054 | every enabled dependency of a resolved crate has an entry with "default" if it uses default features, its explicit features, and all forwarded ones |
| `ResolutionMeaning.ResolutionIsInEverySolution` | Cargo.nix:10998-11076 | it has no crate and no feature that is not in every solution |
| `LeastSolution.StepMonotone` | Cargo.nix:11020-11021 | more features never enable less |
| `LeastSolution.ResolutionIsNecessary` | Cargo.nix:10998-11076 | the result is below every assignment that has the root features and is closed under steps and dependencies; a missing package is one that the assignment needs too |
| `LeastSolution.SolvableResolves` | Cargo.nix:11019-11076 | if such an assignment stays within the table, no package is missing |
| `LeastSolution.IdempotentIffCoherent` | Cargo.nix:11114-11161 | a crate's step is idempotent if and only if each optional dependency name it adds brings nothing new |
| `LeastSolution.ResolutionIsLeastSolution` | Cargo.nix:10998-11076 | if every crate is coherent the result is itself a solution, the least one |
| `LeastSolution.OrderIndependent` | Cargo.nix:11028-11076 | then the result, or its being missing, does not depend on the order of any crate's dependency lists |
| `Completion.CoherentIffNothingListed` | Cargo.nix:11098-11161 | for plain names, a crate is coherent if and only if the feature map lists nothing but itself for the name of any optional dependency; the implicit feature `n = ["dep:n"]` is such an entry |
| `Completion.StepAgain` | Cargo.nix:11020-11021 | with implicit features, one more step adds at most the `dep:n` of names `n` that are there |
| `Completion.CompletionIsLeastSolution` | Cargo.nix:10998-11076 | without coherence: if in each crate one more step settles and asks for nothing new, or adds nothing, the result completed by that step is the least solution |
| `Completion.CompletionOrderIndependent` | Cargo.nix:11028-11076 | so completed, the results for dependencies in any two orders are equal |
| `Completion.CoherentIsTame` | Cargo.nix:11020-11021 | coherent crates are of this kind |
| `Completion.ImplicitIsTame` | Cargo.nix:11020-11195 | so are crates with implicit features whose target predicates read no features |
| `Completion.ResolvesIffSolvable` | Cargo.nix:11019-11076 | in a table of such crates no package is missing if and only if there is a solution within the table |
| `Completion.ResolvesInEveryOrder` | Cargo.nix:11028-11076 | there whether a package is missing does not depend on order |
| `Completion.OrderDecidesMarkers` | Cargo.nix:11028-11076 | if each crate has implicit features at most, or comes out complete, two orders give the same crates, and features that differ by nothing but the `dep:n` of names `n` that are there |
| `FeatureOrder.StepOfA` | Cargo.nix:11020-11021 | in a crate where `a` switches on an optional dependency `n`, `a` brings the feature `n` but not what the map enables for `n` |
| `FeatureOrder.OrderMatters` | Cargo.nix:11041-11053 | for any crate with a feature `f` that brings `n` but not all that `n` brings: two tables differing in the order of two dependencies resolve differently, and in one the request for `n` is lost in part |
| `FeatureOrder.ShadowingOrderMatters` | Cargo.nix:11041-11053 | the instance with the feature map `a = ["dep:n"]`, `n = ["x"]`: `x` is there or not, by order |
| `FeatureOrder.CoherentIffOrderSafe` | Cargo.nix:10998-11076 | a crate with monotone target predicates is coherent if and only if no table that holds it among coherent, monotone crates resolves differently when dependencies are reordered |
| `FeatureOrder.LeavesVisited` | Cargo.nix:11037-11054 | requests to crates without dependencies change no entry but their own |
| `BuildCoverage.DerivationMembers` | Cargo.nix:10893-10908 | the derivations that are followed are those of the dependencies that are enabled |
| `ResolutionMeaning.DerivationsIff` | Cargo.nix:10804-10841 | a crate's derivations are exactly those of its dependencies (dev dependencies of the root with tests) that its merged features, or none, enable for the builder's target |
| `ResolutionMeaning.MergedForTests` | Cargo.nix:10786-10792 | features are merged for the target with `test` set to `runTests`, over the same crates and from the same root |
| `BuildCoverage.EdgeCovered` | Cargo.nix:10804-10841 | an edge followed from a crate with a merged entry leads to one |
| `BuildCoverage.PathCovered` | Cargo.nix:10804-10841 | along a path of any length the fallback is never taken, and each dependency has the features its dependent asks for, if every target predicate that the builder passes on a cached list of features holds for the merge's target too |
| `BuildCoverage.TargetsAgreeWithoutTests` | Cargo.nix:10790 | they agree when the target's `test` is `runTests`, as in a build without tests |
| `BuildCoverage.MissedIffTargetsDiffer` | Cargo.nix:10786-10806 | on a root with one dependency, optional or not, the fallback is taken if and only if the dependency is enabled for the builder's target and its predicate fails for the merge's |
| `BuildCoverage.HarmlessIffAgrees` | Cargo.nix:10786-10841 | for every dependency: no build whose other dependencies agree ever takes the fallback, along any path, if and only if this dependency's predicate agrees on every cached list of features under which the builder follows it |
| `Reconcile.ClusterResources.Add` | rust/operator-binary/src/kafka_controller.rs:530-537 | the library contract: upserts the object with its status kept and records it; a failure changes nothing |
| `Reconcile.ClusterResources.DeleteOrphanedResources` | rust/operator-binary/src/kafka_controller.rs:641-644 | the library contract: removes what is owned and was not recorded, or part of it on failure |
| `Reconcile.ReconcileGroups` | rust/operator-binary/src/kafka_controller.rs:539-606 | the loop over role groups writes and collects what the specification function says, up to the first failure |
| `Reconcile.ReconcileGroup` | rust/operator-binary/src/kafka_controller.rs:542-605 | one role group: all is built before Listener, Service, ConfigMap and StatefulSet are applied in this order |
| `Reconcile.ReconcileDiscovery` | rust/operator-binary/src/kafka_controller.rs:618-632 | both discovery ConfigMaps are built before either is applied |
| `Reconcile.ReconcileKafka` | rust/operator-binary/src/kafka_controller.rs:429-652 | the whole pass leaves the objects and returns the action or error of the specification function, for every pattern of failures |
| `PassTheorems.GroupNameIsNoDiscoveryName` | rust/operator-binary/src/discovery.rs:62-86 | no role group's object name is a discovery ConfigMap's, whatever the cluster and the group are called |
| `PassTheorems.WritesDoNotCollide` | rust/operator-binary/src/kafka_controller.rs:541-632 | no two objects applied in one pass share kind and name |
| `PassTheorems.PassWrites` | rust/operator-binary/src/kafka_controller.rs:521-632 | whatever fails, exactly the recorded keys have been written, each with its desired manifest; without failure these are all the wanted keys |
| `WriteOrder.WritesAreAPrefix` | rust/operator-binary/src/kafka_controller.rs:530-632 | wherever a pass stops, the cluster is what it was with a prefix of the ordered list of wanted keys written, none of which failed; its error is that of the next one, or of the group or the discovery ConfigMaps it starts |
| `PassTheorems.NothingBeforeTheFirstWrite` | rust/operator-binary/src/kafka_controller.rs:435-533 | a pass whose checks or whose first write fail writes nothing; whatever writes has an accepted configuration |
| `PassTheorems.UnretriedPassWroteNothing` | rust/operator-binary/src/kafka_controller.rs:1197-1206 | a failed pass that is not requeued has left the cluster as it was |
| `PassMeaning.RetriedUnlessDone` | rust/operator-binary/src/kafka_controller.rs:1197-1206 | a pass is followed by waiting for a change if and only if it succeeded or the cluster object could not be read; after every other one it is requeued in five seconds |
| `PassMeaning.FirstFaultIsReported` | rust/operator-binary/src/kafka_controller.rs:435-528 | of the nine checks the first that finds fault, with the specification or outside, gives the error |
| `PassMeaning.WantedIff` | rust/operator-binary/src/kafka_controller.rs:521-632 | kind and name of every wanted object: for each role group a Listener, a Service, a ConfigMap and a StatefulSet under its names, and the two discovery ConfigMaps |
| `PassMeaning.PublishesClientPorts` | rust/operator-binary/src/discovery.rs:55-87 | a successful pass publishes every address of the bootstrap Listeners with the port named "bootstrap" under Kerberos, and "kafka-tls" or "kafka" otherwise |
| `PassTheorems.OnlyUnwantedIsDeleted` | rust/operator-binary/src/kafka_controller.rs:634-644 | an object is deleted only if it is owned and not wanted, by a pass in which every apply succeeded |
| `PassTheorems.FailedPassFrame` | rust/operator-binary/src/kafka_controller.rs:530-632 | a pass that fails while writing deletes nothing and changes only wanted objects, to their desired state |
| `PassTheorems.PassConverges` | rust/operator-binary/src/kafka_controller.rs:429-652 | from any state a successful pass leaves exactly the wanted keys owned, with the desired manifests; statuses and what others own stay |
| `PassTheorems.WantedCount` | rust/operator-binary/src/kafka_controller.rs:521-632 | a cluster consists of exactly 4 objects, 4 more for each role group, and the PodDisruptionBudget if enabled, all with different keys |
| `PassTheorems.PdbsAdd` | rust/operator-binary/src/operations/pdb.rs:24-56 | the PodDisruptionBudget is written if and only if it is enabled |
| `PassTheorems.PassSucceedsIff` | rust/operator-binary/src/kafka_controller.rs:429-652 | a pass succeeds if and only if nothing outside fails, the configuration is accepted and the Listener statuses have the discovery port |
| `PassTheorems.SecondPassChangesNothingIff` | rust/operator-binary/src/kafka_controller.rs:541-632 | a second successful pass, groups in any order, changes at most the discovery ConfigMaps, and changes nothing if and only if it publishes the same servers |
| `PassTheorems.SecondPassIsIdle` | rust/operator-binary/src/kafka_controller.rs:429-652 | with the groups in the same order a second pass changes nothing |
| `IterationOrder.SameInEveryOrderIff` | rust/operator-binary/src/kafka_controller.rs:541-584 | all iteration orders of the role groups publish the same servers if and only if, for any two groups, what the one lists and what the other lists commute as text |
| `IterationOrder.IterationOrderShows` | rust/operator-binary/src/kafka_controller.rs:541-584 | two groups whose lists do not commute are enough for two orders to publish different servers |
| `IterationOrder.CommutingHosts` | rust/operator-binary/src/discovery.rs:99-105 | for addresses without commas the texts commute if and only if the lists of hosts and ports do |
| `IterationOrder.IdleInEveryOrderIff` | rust/operator-binary/src/kafka_controller.rs:429-652 | after a successful pass every other successful pass changes nothing, in whatever order it iterates the groups, if and only if the lists found in the Listener statuses before it commute |
| `IterationOrder.IdleIffHostsCommute` | rust/operator-binary/src/kafka_controller.rs:429-652 | the same in terms of hosts and ports, for addresses without commas |
| `Runs.DisappearanceIsJustified` | rust/operator-binary/src/kafka_controller.rs:634-644 | in any run, an object disappears only in a pass that went through all its checks and applies without error and whose specification does not want it |
| `Runs.WantedIsNeverAbsent` | rust/operator-binary/src/kafka_controller.rs:429-652 | an object every specification of a run wants is, once there, never absent again |
| `Runs.OwnedWasWanted` | rust/operator-binary/src/kafka_controller.rs:530-632 | all that is owned after a run was owned before or wanted by some pass of it |
| `Runs.RunConverges` | rust/operator-binary/src/kafka_controller.rs:429-652 | after any run, failed passes included, one successful pass leaves exactly the wanted keys with their desired manifests |
| `Runs.SettledAfterPass` | rust/operator-binary/src/kafka_controller.rs:429-652 | a pass, wherever it fails, does not change where a successful pass will end |
| `Runs.RetriesConverge` | rust/operator-binary/src/kafka_controller.rs:1197-1206 | however many retries fail, the first that succeeds ends where one successful pass would have |
| `Runs.PublishesNothingIff` | rust/operator-binary/src/kafka_controller.rs:618-632 | a successful pass publishes an empty list of servers if and only if no bootstrap Listener had an address before it |
| `Runs.FirstPassPublishesNothing` | rust/operator-binary/src/kafka_controller.rs:618-632 | before any Listener has an address a pass that nothing outside makes fail does succeed, and publishes that empty list |
| `Security.Validate` | rust/crd/src/authentication.rs:111-132 | accepts exactly the lists with at most one class, of a supported provider; otherwise the first error in order |
| `Security.FirstExact` | rust/crd/src/authentication.rs:94-105 | the lookups find the first class of their provider, and none if and only if there is none |
| `Security.EnabledIffClass` | rust/crd/src/security.rs:202-235 | Kerberos and TLS authentication are on if and only if such a class is given |
| `Security.AcceptedIsExclusive` | rust/crd/src/security.rs:237-242 | validated classes never give both Kerberos and TLS authentication |
| `BrokerMeaning.AcceptedIff` | rust/crd/src/security.rs:237-248 | a configuration is accepted if and only if it has at most one class, for certificates or Kerberos, and Kerberos comes with a server secret class |
| `Security.ListenerPorts` | rust/operator-binary/src/kafka_controller.rs:1209-1230 | the pushed ports are metrics, client and, under Kerberos, bootstrap; the name discovery looks up is among them, and names and numbers determine each other |
| `Security.ContainerPorts` | rust/operator-binary/src/kafka_controller.rs:1233-1257 | the container exposes the very ports of the Listener, with the same guarantees |
| `Security.DiscoveryPortIsExposed` | rust/operator-binary/src/discovery.rs:63-67 | the port name discovery looks up is exposed for every configuration, with the bootstrap port under Kerberos and the client port otherwise |
| `BrokerMeaning.PortsByMode` | rust/crd/src/security.rs:250-287 | the exposed ports by name and number, and the name discovery reads, for each kind of accepted configuration |
| `BrokerMeaning.DiscoveryLeadsToAListener` | rust/operator-binary/src/discovery.rs:63-67 | the port discovery reads is the one that the bootstrap listener binds under Kerberos and the client listener otherwise |
| `Listeners.GetKafkaListenerConfig` | rust/crd/src/listener.rs:98-238 | fails if and only if there is no namespace; otherwise lists and map hold, in order, the client listener, INTERNAL and, under Kerberos, BOOTSTRAP with their hosts, ports and protocols |
| `BrokerMeaning.ListenersByMode` | rust/crd/src/listener.rs:98-238 | both lists and the protocol map in names, hosts and numbers, for each kind of accepted configuration |
| `BrokerMeaning.MapTextByMode` | rust/crd/src/listener.rs:75-82 | the text of the protocol map for each |
| `BrokerMeaning.ListenerTextExact` | rust/crd/src/listener.rs:86-96 | the text of a listener and of its port |
| `Listeners.ListenersDistinct` | rust/crd/src/listener.rs:109-231 | listener names are pairwise distinct in both lists, and so are bind ports |
| `Listeners.ListenersAgree` | rust/crd/src/listener.rs:109-231 | both lists name the same listeners in the same order, the protocol map has exactly these names, and INTERNAL is one |
| `Listeners.ClientPortAgreesIff` | rust/crd/src/listener.rs:109-178 | for validated classes the client listener binds the exposed client port if and only if `validate_authentication_methods` accepts |
| `Listeners.BootstrapPortAgrees` | rust/crd/src/listener.rs:215-231 | the bootstrap listener binds the port exposed under the name discovery looks up |
| `Listeners.AdvertisedEndpointsDistinctIff` | rust/crd/src/listener.rs:215-231 | advertised endpoints are pairwise distinct if and only if Kerberos is off |
| `Listeners.RenderedListenersDecode` | rust/crd/src/listener.rs:55-96 | splitting the rendered list at commas recovers name, host and port of every listener, in order |
| `Listeners.ConfigDecodes` | rust/crd/src/listener.rs:55-238 | for a comma-free pod name both rendered lists of the configuration that is returned are read back as the expected listeners, with their hosts and ports |
| `Listeners.ReadNamesDistinct` | rust/crd/src/listener.rs:36-45 | the names read back are pairwise different |
| `Listeners.RenderedProtocolMapDecodes` | rust/crd/src/listener.rs:75-82 | the entries of the rendered protocol map are exactly those of the map |
| `BrokerConfig.ConfigSettings` | rust/crd/src/security.rs:444-588 | the inserts give exactly the keys that are due, each with its value, INTERNAL for the inter-broker listener among them |
| `BrokerConfig.InsertStores` | rust/crd/src/security.rs:451-474 | the six inserts for one listener add its six store keys and change no other |
| `BrokerConfig.PropertyNameIsLowerCase` | rust/crd/src/security.rs:89-135 | the listener part of a property key is the listener's name in lower case |
| `BrokerConfig.KeyTextInjective` | rust/crd/src/security.rs:89-135 | no two settings share a property key |
| `BrokerConfig.ServerProperties` | rust/operator-binary/src/kafka_controller.rs:697-703 | the three layers are extended in order: under each key the operator sets stands its value, INTERNAL for the inter-broker listener, under every other but the graceful shutdown key the user's |
| `BrokerMeaning.PropertiesByMode` | rust/crd/src/security.rs:444-588 | key by key and value by value, what stands in the properties whatever the user overrides, for each kind of accepted configuration |
| `BrokerMeaning.OtherKeysAreTheUsers` | rust/operator-binary/src/kafka_controller.rs:697-703 | under every other key stands what the user has there, or nothing |
| `BrokerMeaning.InterBrokerIsInternal` | rust/crd/src/security.rs:582-585 | whatever the user overrides, `inter.broker.listener.name` is `INTERNAL` |
| `BrokerMeaning.InterBrokerIsAListener` | rust/crd/src/security.rs:582-585 | that is a listener of every configuration, in both lists and in the protocol map |
| `BrokerConfig.TlsCompleteIff` | rust/crd/src/security.rs:444-588 | for accepted configurations and all overrides each listener mapped to SSL or SASL_SSL has its six store keys, if and only if Kerberos does not come with an empty internal secret class |
| `Pod.AddVolumeAndVolumeMounts` | rust/crd/src/security.rs:384-440 | on success exactly the TLS volumes and mounts of the secret classes are added; on empty builders it succeeds |
| `Pod.AddKerberosPodConfig` | rust/operator-binary/src/kerberos.rs:35-70 | on success the Kerberos volume is there, and mount and environment are in both containers |
| `Pod.MountKerberos` | rust/operator-binary/src/kerberos.rs:58-66 | one turn of the loop over the containers; it fails only if the directory is mounted from elsewhere |
| `Pod.BuildPod` | rust/operator-binary/src/kafka_controller.rs:858-1117 | the additions in their order never clash, and give exactly the pod's volumes, mounts and the files its variables name |
| `PodMeaning.TlsSecretClassIff` | rust/crd/src/security.rs:591-599 | the TLS secret class is the one that signs clients' certificates by the first class that asks for them, and the server's only if none is named |
| `PodMeaning.StoresByClass` | rust/crd/src/security.rs:384-440 | the kcat directory shows PEM files and the server directory PKCS#12 stores of that class, or neither exists; the internal directory shows stores of the internal class |
| `PodMeaning.KeytabByClass` | rust/operator-binary/src/kerberos.rs:42-60 | the keytab in both containers is of the first class that asks for Kerberos |
| `PodMeaning.FixedDirectories` | rust/operator-binary/src/kafka_controller.rs:1005-1117 | which volume the broker has in each other directory |
| `PodMeaning.KerberosEnvironment` | rust/operator-binary/src/kerberos.rs:61-65 | under Kerberos, and only then, both variables name the Kerberos configuration in both containers |
| `PodMeaning.BrokerEnvironment` | rust/operator-binary/src/kafka_controller.rs:963-1002 | the files that the other variables of the broker name |
| `Pod.KcatProberContainerCommands` | rust/crd/src/security.rs:290-336 | the pushed arguments are those of the one branch that applies, ended by `-L` |
| `PodMeaning.KcatLaunchTexts` | rust/crd/src/security.rs:294-334 | the words that start the probe and the one that ends it, for each kind of accepted configuration |
| `PodMeaning.KcatOptionTexts` | rust/crd/src/security.rs:639-680 | its options word by word: protocol, key, certificate and CA file, Kerberos settings |
| `MountCoverage.KafkaMountsExact` | rust/crd/src/security.rs:384-440 | for each directory, exactly when it is mounted in the kafka container |
| `MountCoverage.KcatMountsExact` | rust/crd/src/security.rs:391-406 | for each directory, exactly when it is mounted in the kcat container |
| `MountCoverage.KafkaFilesMountedIff` | rust/operator-binary/src/kafka_controller.rs:963-1019 | every file the broker's security settings, environment and start command name, but for the metrics agent in `/stackable/jmx`, on which no volume is mounted, lies in a mounted directory if and only if TLS authentication comes with a secret class |
| `MountCoverage.KcatFilesMountedIff` | rust/crd/src/security.rs:290-336 | the same for the files the kcat probe and its environment name |
| `MountCoverage.FilesMountedIff` | rust/crd/src/security.rs:290-440 | for accepted configurations both hold, with the same exemption, if and only if TLS authentication comes with a secret class, its own or the server's |
| `MountCoverage.MountsHaveVolumes` | rust/operator-binary/src/kafka_controller.rs:1005-1117 | every mount in either container is of a volume of the pod or of a volume claim |
| `MountCoverage.AdvertisedFilesMounted` | rust/crd/src/listener.rs:109-246 | each client listener is advertised under the contents of two files counted among those of the start command, in a mounted directory |
| `Probe.NamedProtocol` | rust/crd/src/security.rs:639-680 | the argument list names a protocol if and only if the client listener has TLS, and then the same one |
| `Probe.NamedBroker` | rust/crd/src/security.rs:292-332 | the argument list names the client port, on localhost except under Kerberos |
| `Probe.NamedPortAgreesIff` | rust/crd/src/security.rs:290-332 | that is the port the client listener binds if and only if `validate_authentication_methods` accepts |
| `Probe.ProbeRunsKcatIff` | rust/operator-binary/src/kafka_controller.rs:1050-1054 | of the list as it is executed: kcat runs if and only if Kerberos is off |
| `Probe.KerberosProbeRunsNoKcat` | rust/crd/src/security.rs:299-322 | an accepted configuration with Kerberos, whose probe only exports the realm |
| `Probe.ProbeBroker` | rust/crd/src/security.rs:290-336 | kcat is given exactly one broker, the client port on localhost, and none under Kerberos |
| `Probe.ProbeProtocol` | rust/crd/src/security.rs:290-336 | kcat is given the protocol of the client listener if that has TLS and Kerberos is off, and otherwise none |
| `Probe.ProbeConnectsIff` | rust/crd/src/security.rs:290-336 | kcat connects if and only if Kerberos is off, and then to the port the client listener binds |
| `Pods.ObjectNameInjective` | rust/crd/src/lib.rs:181-190 | role groups of a cluster have different object names |
| `Pods.BootstrapServiceNameInjective` | rust/crd/src/lib.rs:176-178 | and different bootstrap names |
| `Pods.PodsExact` | rust/crd/src/lib.rs:229-248 | the pods are those of every group up to its replicas, in order of group name and then index |
| `Pods.PodsIgnoreIterationOrder` | rust/crd/src/lib.rs:235-238 | any two iteration orders of the role-group map give the same list |
| `Pods.PodCount` | rust/crd/src/lib.rs:242 | their number is the sum of the replicas |
| `Pods.PodNameInjective` | rust/crd/src/lib.rs:245 | a pod's name determines its group and index, even where a group is named like another's pod |
| `Pods.PodNamesDistinct` | rust/crd/src/lib.rs:229-248 | no two pods of the list share a name |
| `Pods.FqdnInjective` | rust/crd/src/lib.rs:291-299 | a pod's fully qualified name determines its group and index, with dots in any name |
| `Pods.FqdnsDistinct` | rust/crd/src/lib.rs:229-299 | no two pods of the list share a fully qualified name |
| `PodMeaning.AdvertisedHostIsThePod` | rust/crd/src/listener.rs:248-259 | with `$POD_NAME` put in, the advertised host is the pod's fully qualified name |
| `PodMeaning.NamesInTests` | rust/crd/src/listener.rs:284-290 | the names of the operator's own examples |
| `Text.ParsePrinted` | rust/crd/src/lib.rs:245 | a printed index is read back |
| `Discovery.CollectExact` | rust/operator-binary/src/discovery.rs:143-154 | collecting succeeds if and only if every address has the port in range, keeps all addresses in order, and otherwise stops at the first that has not |
| `Discovery.HostOfIff` | rust/operator-binary/src/discovery.rs:143-153 | a missing port and one out of range give their own errors, every other address its host |
| `Discovery.ListenerHostsExact` | rust/operator-binary/src/discovery.rs:130-155 | the same over the flattened addresses of any Listeners, with or without status |
| `Discovery.PublishedDecodesIff` | rust/operator-binary/src/discovery.rs:99-105 | splitting at commas, and each part at its last colon, recovers exactly the hosts and ports, if and only if no host has a comma |
| `ReleaseFile.PatchLines` | scripts/run-tests:209-221 | the patch loop's lines and matched operators are those of the recursive definition |
| `ReleaseFile.FindMatch` | scripts/run-tests:216-220 | the loop with its break finds the first requested operator whose name is in the line |
| `ReleaseFile.SkipLines` | scripts/run-tests:232-246 | the same for the skip loop with its counter |
| `ReleaseFile.PatchRelease` | scripts/run-tests:204-263 | contents or error of the two loops and the two sanity checks |
| `ReleaseTheorems.OnlySuccessorsChange` | scripts/run-tests:211-221 | on arbitrary lines: their number stays, and beyond its newline only a line after a searched and matched one with a version that is not empty changes |
| `ReleaseTheorems.SubstituteExact` | scripts/run-tests:213 | on any line, what follows the first colon is replaced if anything does, and otherwise the line stays |
| `ReleaseTheorems.RStripExact` | scripts/run-tests:221 | exactly the newlines at the end go |
| `ReleaseTheorems.SkipKeepsTheRest` | scripts/run-tests:235-246 | on arbitrary lines: the output is the subsequence without each matched line and its successor, and nothing else is gone |
| `ReleaseTheorems.OpsFrom` | scripts/run-tests:212-220 | an operator is recorded if and only if it is the first match on some searched line |
| `ReleaseTheorems.ErrorsExact` | scripts/run-tests:223-253 | an error names exactly the requested operators that were never the first match on a searched line; skips are checked after patches |
| `ReleaseTheorems.ReleaseByLines` | scripts/run-tests:204-263 | on a release file of a header and product blocks, wherever on product lines operator names occur: contents with the versions that the first operator found on each line asks for and without the products on whose line a skipped name occurs, or the operators never found first |
| `ReleaseTheorems.FirstIff` | scripts/run-tests:216-220 | a name is found on a line if and only if it is listed, occurs there, and no name listed before it does |
| `ReleaseTheorems.OverridesAsAskedIff` | scripts/run-tests:216-220 | for any versions requested for a list of names, versions are overridden as asked if and only if on each product's line the first name found, if any, is the product's own |
| `ReleaseTheorems.SkipsAsAskedIff` | scripts/run-tests:239-246 | exactly the products asked for are skipped if and only if no other product's line has a skipped operator's name |
| `ReleaseTheorems.PatchErrorAsAskedIff` | scripts/run-tests:223-229 | the names reported as not patched are those of no product if and only if each product's name is found on some line and every other requested name is hidden wherever it occurs |
| `ReleaseTheorems.SkipErrorAsAskedIff` | scripts/run-tests:247-253 | the same for the names reported as not skipped |
| `ReleaseTheorems.PartOfANameIsAccepted` | scripts/run-tests:211-224 | a proper prefix of a product's name is accepted although it is no product, and that product is patched |
| `ReleaseTheorems.LaterNameIsDenied` | scripts/run-tests:211-229 | a product is reported as not found if a proper prefix of its name is listed before it |
| `ReleaseTheorems.ReleaseRefines` | scripts/run-tests:204-263 | so, where on each product's line the first name found is the product's own, the patcher renders the product list with versions overridden, first match first, and skipped products removed, or names the products that are not there |
| `ReleaseTheorems.SeparateNamesAreOwn` | scripts/run-tests:216-220 | names that occur only on their own product's line are of this kind |

## Left out

The repository's other parts:

- The crate table of `Cargo.nix` and the building and fetching of derivations: data and I/O; crate configurations are arbitrary finite maps here.
- Kubernetes client calls, watches and concurrent passes: library behaviour. What `ClusterResources` does is stated as the contract of `Reconcile.ClusterResources`: an add upserts and records, a deletion of orphans removes owned objects that were not recorded and may fail half way.
- The paused and stopped apply strategies, the written status and its conditions, and several clusters in one namespace.
- `merged_config`, memory and heap settings, product-config validation and the writing of properties files: their algorithms are in libraries. They appear only as checks that may fail and as the text a specification renders for a key.
- The shell text of the start command, JAAS strings and log configuration: only the file paths they name are modelled.
- Pod overrides, the vector container, resources and affinities of the StatefulSet.
- The command line, subprocesses, temporary files and opening of files in `scripts/run-tests`.
- Helm helpers, the trailing-newline script, `nix/sources.nix`, documentation and test manifests.

What the model assumes or simplifies:

- Names are ordered by character here and by byte in Nix and Rust; for UTF-8 strings the two orders agree.
- `RoleGroupRef::object_name` is a library function, taken as `<cluster>-broker-<group>`. The names of the ServiceAccount, RoleBinding and PodDisruptionBudget are also chosen by libraries; only their kinds matter to the theorems.
- A resolution takes a ghost set of features that bounds the recursion; `Resolver.UniverseExists` shows that there always is one. `Resolver.Merge` may assume that a call asks for more than is cached, which is so for every call the resolver makes itself and for a root call with an empty cache.
- The name of the file that stops Vector is chosen by a library; only its directory, which the start command gives, matters.
- Target predicates are functions of the target and the list of features; where a theorem needs them monotone it says so.
- `AddVolume` and `AddVolumeMount` of the builders fail only where the same name or path is there with another content: an assumption about the library.
- Keys and values of `server.properties` are kept structured until they are rendered; `BrokerConfig.KeyTextInjective` shows that nothing is lost by that.
- The errors of getting the required labels, of generating the product config and of building the PodDisruptionBudget are folded into the neighbouring check or write.
- `re.sub` interprets backslash escapes in its replacement; the patcher is modelled for versions without a backslash.
- ReleaseByLines: does not cover files in whose header or version lines an operator's name occurs; `OnlySuccessorsChange`, `SkipKeepsTheRest` and `ErrorsExact` hold for arbitrary lines.
- KafkaFilesMountedIff: leaves out variables and properties that the user adds, programs of the image, and, as said in its row, the image's metrics agent.
- How the probe's shell and kcat end is not modelled, only what they are started with.
