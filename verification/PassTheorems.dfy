/**
 What one reconcile pass does to the cluster: no collisions among its writes, what it leaves
 behind when it fails, what it deletes, and where a failure-free pass ends.
 */
module PassTheorems {
  import opened Common
  import opened Text
  import opened Pods
  import opened Security
  import opened Discovery
  import opened Reconcile

  // ---- No collisions ----

  ghost predicate NoDuplicates(keys: seq<Key>) {
    forall i, j | 0 <= i < j < |keys| :: keys[i] != keys[j]
  }

  predicate IsDiscoveryKey(spec: Spec, k: Key) {
    k == DiscoveryKey(spec) || k == NodePortDiscoveryKey(spec)
  }

  lemma GroupNameIsNoDiscoveryName(spec: Spec, group: string)
    ensures ObjectName(spec.name, group) != spec.name
    ensures ObjectName(spec.name, group) != spec.name + "-nodeport"
  {
    var name := ObjectName(spec.name, group);
    assert |name| > |spec.name|;
    assert name[|spec.name| + 1] == 'b';
    assert (spec.name + "-nodeport")[|spec.name| + 1] == 'n';
  }

  lemma GroupKeysAreNoDiscoveryKeys(spec: Spec, group: string)
    ensures forall k | k in GroupKeys(spec, group) :: !IsDiscoveryKey(spec, k)
  {
    GroupNameIsNoDiscoveryName(spec, group);
  }

  lemma GroupKeysDisjoint(spec: Spec, g: string, h: string)
    requires g != h
    ensures forall k | k in GroupKeys(spec, g) :: k !in GroupKeys(spec, h)
  {
    if ObjectName(spec.name, g) == ObjectName(spec.name, h) { ObjectNameInjective(spec.name, g, h); }
    if BootstrapServiceName(spec.name, g) == BootstrapServiceName(spec.name, h) {
      BootstrapServiceNameInjective(spec.name, g, h);
    }
  }

  lemma {:induction false} AllGroupKeysExact(spec: Spec, groups: seq<string>, k: Key)
    ensures k in AllGroupKeys(spec, groups) <==> exists g :: g in groups && k in GroupKeys(spec, g)
  {
    if groups != [] {
      var front, last := groups[..|groups| - 1], groups[|groups| - 1];
      AllGroupKeysExact(spec, front, k);
      assert groups == front + [last] && last in groups;
    }
  }

  lemma NoDuplicatesAppend(a: seq<Key>, b: seq<Key>)
    requires NoDuplicates(a) && NoDuplicates(b)
    requires forall k | k in a :: k !in b
    ensures NoDuplicates(a + b)
  {
    forall i, j | 0 <= i < j < |a + b|
      ensures (a + b)[i] != (a + b)[j]
    {
      if i < |a| <= j { assert a[i] in a && b[j - |a|] in b; }
    }
  }

  lemma {:induction false} AllGroupKeysDistinct(spec: Spec, groups: seq<string>)
    requires DistinctSeq(groups)
    ensures NoDuplicates(AllGroupKeys(spec, groups))
  {
    if groups != [] {
      var front, last := groups[..|groups| - 1], groups[|groups| - 1];
      AllGroupKeysDistinct(spec, front);
      forall k | k in AllGroupKeys(spec, front)
        ensures k !in GroupKeys(spec, last)
      {
        AllGroupKeysExact(spec, front, k);
        var g :| g in front && k in GroupKeys(spec, g);
        GroupKeysDisjoint(spec, g, last);
      }
      NoDuplicatesAppend(AllGroupKeys(spec, front), GroupKeys(spec, last));
    }
  }

  lemma GroupKeyKinds(spec: Spec, groups: seq<string>, k: Key)
    requires k in AllGroupKeys(spec, groups)
    ensures k.kind in {Listener, Service, ConfigMap, StatefulSet} && !IsDiscoveryKey(spec, k)
  {
    AllGroupKeysExact(spec, groups, k);
    var g :| g in groups && k in GroupKeys(spec, g);
    GroupKeysAreNoDiscoveryKeys(spec, g);
  }

  // No two objects written in one pass share kind and name, whatever the names of the cluster
  // and of its role groups.
  lemma WritesDoNotCollide(spec: Spec)
    requires WellFormed(spec)
    ensures NoDuplicates(WantedKeys(spec))
  {
    if spec.brokers.Some? {
      var brokers := spec.brokers.value;
      var rbac := [ServiceAccountKey(spec), RoleBindingKey(spec)];
      var groups := AllGroupKeys(spec, brokers.groups);
      var pdb := if brokers.pdbEnabled then [PdbKey(spec)] else [];
      var discovery := [DiscoveryKey(spec), NodePortDiscoveryKey(spec)];
      AllGroupKeysDistinct(spec, brokers.groups);
      forall k | k in groups
        ensures k !in rbac && k !in pdb && k !in discovery
      {
        GroupKeyKinds(spec, brokers.groups, k);
      }
      NoDuplicatesAppend(rbac, groups);
      NoDuplicatesAppend(rbac + groups, pdb);
      assert |NodePortDiscoveryKey(spec).name| > |DiscoveryKey(spec).name|;
      assert NoDuplicates(discovery);
      assert forall k | k in rbac + groups + pdb :: k !in discovery;
      NoDuplicatesAppend(rbac + groups + pdb, discovery);
    }
  }

  // ---- The state a pass has written ----

  // The statuses of the bootstrap Listeners, in the iteration order of the role groups.
  function ListenerStatuses(objects: Objects, spec: Spec, groups: seq<string>): seq<Option<Status>> {
    if groups == [] then []
    else ListenerStatuses(objects, spec, groups[..|groups| - 1])
         + [StatusAt(objects, ListenerKey(spec, groups[|groups| - 1]))]
  }

  function FoundHosts(objects: Objects, spec: Spec): Result<Hosts, HostError> {
    match spec.brokers
    case None => Ok([])
    case Some(brokers) => ListenerHosts(ListenerStatuses(objects, spec, brokers.groups), spec.security.DiscoveryPortName())
  }

  // The servers that discovery publishes.
  function Servers(objects: Objects, spec: Spec): string {
    match FoundHosts(objects, spec)
    case Ok(hosts) => BootstrapServers(hosts)
    case Err(_) => ""
  }

  // The manifest a pass writes under a key.
  function Desired(spec: Spec, servers: string, k: Key): Manifest {
    Manifest(spec.render(k), if IsDiscoveryKey(spec, k) then Some(servers) else None)
  }

  // The objects once the keys `applied` have been written.
  function Written(start: Objects, spec: Spec, servers: string, applied: set<Key>): Objects {
    map k | k in start.Keys + applied ::
      if k in applied then Object(true, Desired(spec, servers, k), StatusAt(start, k)) else start[k]
  }

  // A pass in progress has written exactly what it recorded, and recorded only what did not fail.
  ghost predicate Tracks(start: Objects, spec: Spec, servers: string, env: Environment, p: Progress) {
    && p.objects == Written(start, spec, servers, p.applied)
    && (forall k | k in p.applied :: !env.fails(Apply(k)))
    && p.error != Some(InvalidKafkaCluster)
  }

  lemma AddTracks(
      start: Objects, spec: Spec, servers: string, env: Environment, p: Progress, key: Key, error: Error)
    requires Tracks(start, spec, servers, env, p) && error != InvalidKafkaCluster
    ensures Tracks(start, spec, servers, env, Add(p, key, Desired(spec, servers, key), error, env))
  {
    WrittenMore(start, spec, servers, p.applied, key);
  }

  lemma WrittenMore(start: Objects, spec: Spec, servers: string, applied: set<Key>, key: Key)
    ensures Upsert(Written(start, spec, servers, applied), key, Desired(spec, servers, key))
         == Written(start, spec, servers, applied + {key})
  {
    var written := Written(start, spec, servers, applied);
    var more := Upsert(written, key, Desired(spec, servers, key));
    assert StatusAt(written, key) == StatusAt(start, key);
    assert more.Keys == start.Keys + (applied + {key});
    forall k | k in more
      ensures more[k] == Written(start, spec, servers, applied + {key})[k]
    {
      if k != key { assert more[k] == written[k]; }
    }
  }

  lemma WrittenKeepsStatus(start: Objects, spec: Spec, servers: string, applied: set<Key>, k: Key)
    ensures StatusAt(Written(start, spec, servers, applied), k) == StatusAt(start, k)
  {
  }

  // What the recorded keys and listeners become over some steps: `keys` are added, all of
  // them unless there is an error.
  ghost predicate Adds(before: Progress, after: Progress, keys: set<Key>) {
    && before.applied <= after.applied <= before.applied + keys
    && (after.error.None? ==> after.applied == before.applied + keys && before.error.None?)
    && (before.error.Some? ==> after == before)
  }

  lemma AddAdds(p: Progress, key: Key, manifest: Manifest, error: Error, env: Environment)
    ensures Adds(p, Add(p, key, manifest, error, env), {key})
    ensures Add(p, key, manifest, error, env).listeners == p.listeners
  {
  }

  lemma AddsChain(a: Progress, b: Progress, c: Progress, first: set<Key>, second: set<Key>)
    requires Adds(a, b, first) && Adds(b, c, second)
    ensures Adds(a, c, first + second)
  {
  }

  lemma GroupAdds(start: Objects, spec: Spec, servers: string, env: Environment, p: Progress, group: string)
    requires Tracks(start, spec, servers, env, p)
    ensures var q := AddGroup(p, spec, group, env);
            && Tracks(start, spec, servers, env, q)
            && Adds(p, q, KeySet(GroupKeys(spec, group)))
            && (q.error.None? ==> q.listeners == p.listeners + [StatusAt(start, ListenerKey(spec, group))]
                                  && !env.fails(Build(group)))
  {
    GroupKeysAreNoDiscoveryKeys(spec, group);
    var keys := GroupKeys(spec, group);
    assert forall k | k in keys :: Plain(spec, k) == Desired(spec, servers, k);
    assert ListenerKey(spec, group) in keys && ServiceKey(spec, group) in keys;
    assert ConfigMapKey(spec, group) in keys && StatefulSetKey(spec, group) in keys;
    if p.error.None? && !env.fails(Build(group)) {
      var key := ListenerKey(spec, group);
      AddTracks(start, spec, servers, env, p, key, ApplyRoleService);
      var p0 := Add(p, key, Plain(spec, key), ApplyRoleService, env);
      AddAdds(p, key, Plain(spec, key), ApplyRoleService, env);
      var p1 := AddListener(p, spec, group, env);
      WrittenKeepsStatus(start, spec, servers, p0.applied, key);
      assert Adds(p, p1, {key}) && Tracks(start, spec, servers, env, p1);
      RestOfGroupAdds(start, spec, servers, env, p1, group);
      var rest := {} + {ServiceKey(spec, group)} + {ConfigMapKey(spec, group)} + {StatefulSetKey(spec, group)};
      assert KeySet(keys) == {key} + rest;
      AddsChain(p, p1, AddGroup(p, spec, group, env), {key}, rest);
    }
  }

  // One more write, of a key whose manifest is plain.
  lemma StepAdds(
      start: Objects, spec: Spec, servers: string, env: Environment,
      p: Progress, q: Progress, keys: set<Key>, key: Key, error: Error)
    requires Tracks(start, spec, servers, env, q) && Adds(p, q, keys) && q.listeners == p.listeners
    requires Plain(spec, key) == Desired(spec, servers, key) && error != InvalidKafkaCluster
    ensures var r := Add(q, key, Plain(spec, key), error, env);
            Tracks(start, spec, servers, env, r) && Adds(p, r, keys + {key}) && r.listeners == p.listeners
  {
    AddTracks(start, spec, servers, env, q, key, error);
    AddAdds(q, key, Plain(spec, key), error, env);
    AddsChain(p, q, Add(q, key, Plain(spec, key), error, env), keys, {key});
  }

  lemma RestOfGroupAdds(start: Objects, spec: Spec, servers: string, env: Environment, p1: Progress, group: string)
    requires Tracks(start, spec, servers, env, p1)
    requires forall k | k in GroupKeys(spec, group) :: Plain(spec, k) == Desired(spec, servers, k)
    ensures var p2 := Add(p1, ServiceKey(spec, group), Plain(spec, ServiceKey(spec, group)), ApplyRoleGroupService, env);
            var p3 := Add(p2, ConfigMapKey(spec, group), Plain(spec, ConfigMapKey(spec, group)), ApplyRoleGroupConfig, env);
            var p4 := Add(p3, StatefulSetKey(spec, group), Plain(spec, StatefulSetKey(spec, group)), ApplyRoleGroupStatefulSet, env);
            && Tracks(start, spec, servers, env, p4)
            && Adds(p1, p4, {} + {ServiceKey(spec, group)} + {ConfigMapKey(spec, group)} + {StatefulSetKey(spec, group)})
            && p4.listeners == p1.listeners
  {
    var keys := GroupKeys(spec, group);
    assert keys[1] in keys && keys[2] in keys && keys[3] in keys;
    StepAdds(start, spec, servers, env, p1, p1, {}, keys[1], ApplyRoleGroupService);
    var p2 := Add(p1, keys[1], Plain(spec, keys[1]), ApplyRoleGroupService, env);
    StepAdds(start, spec, servers, env, p1, p2, {} + {keys[1]}, keys[2], ApplyRoleGroupConfig);
    var p3 := Add(p2, keys[2], Plain(spec, keys[2]), ApplyRoleGroupConfig, env);
    StepAdds(start, spec, servers, env, p1, p3, {} + {keys[1]} + {keys[2]}, keys[3], ApplyRoleGroupStatefulSet);
  }

  lemma {:induction false} GroupsTrack(
      start: Objects, spec: Spec, servers: string, env: Environment, p: Progress, groups: seq<string>)
    requires Tracks(start, spec, servers, env, p)
    ensures Tracks(start, spec, servers, env, AddGroups(p, spec, groups, env))
  {
    if groups != [] {
      var front, last := groups[..|groups| - 1], groups[|groups| - 1];
      GroupsTrack(start, spec, servers, env, p, front);
      GroupAdds(start, spec, servers, env, AddGroups(p, spec, front, env), last);
    }
  }

  lemma {:induction false} GroupsAdd(
      start: Objects, spec: Spec, servers: string, env: Environment, p: Progress, groups: seq<string>)
    requires Tracks(start, spec, servers, env, p)
    ensures Adds(p, AddGroups(p, spec, groups, env), KeySet(AllGroupKeys(spec, groups)))
  {
    if groups != [] {
      var front, last := groups[..|groups| - 1], groups[|groups| - 1];
      var q := AddGroups(p, spec, front, env);
      GroupsAdd(start, spec, servers, env, p, front);
      GroupsTrack(start, spec, servers, env, p, front);
      GroupAdds(start, spec, servers, env, q, last);
      AddsChain(p, q, AddGroup(q, spec, last, env), KeySet(AllGroupKeys(spec, front)), KeySet(GroupKeys(spec, last)));
      assert KeySet(AllGroupKeys(spec, groups)) == KeySet(AllGroupKeys(spec, front)) + KeySet(GroupKeys(spec, last));
    }
  }

  ghost predicate AllBuilt(env: Environment, groups: seq<string>) {
    forall i | 0 <= i < |groups| :: !env.fails(Build(groups[i]))
  }

  lemma GroupsBuilt(spec: Spec, env: Environment, p: Progress, groups: seq<string>)
    requires AddGroups(p, spec, groups, env).error.None?
    ensures AllBuilt(env, groups)
  {
    forall i | 0 <= i < |groups|
      ensures !env.fails(Build(groups[i]))
    {
      BuiltAt(spec, env, p, groups, i);
    }
  }

  lemma {:induction false} BuiltAt(spec: Spec, env: Environment, p: Progress, groups: seq<string>, i: nat)
    requires i < |groups| && AddGroups(p, spec, groups, env).error.None?
    ensures !env.fails(Build(groups[i]))
  {
    var front, last := groups[..|groups| - 1], groups[|groups| - 1];
    GroupBuilt(spec, env, AddGroups(p, spec, front, env), last);
    if i < |front| { BuiltAt(spec, env, p, front, i); }
  }

  lemma GroupBuilt(spec: Spec, env: Environment, p: Progress, group: string)
    requires AddGroup(p, spec, group, env).error.None?
    ensures p.error.None? && !env.fails(Build(group))
  {
  }

  lemma {:induction false} GroupsListen(
      start: Objects, spec: Spec, servers: string, env: Environment, p: Progress, groups: seq<string>)
    requires Tracks(start, spec, servers, env, p)
    requires AddGroups(p, spec, groups, env).error.None?
    ensures AddGroups(p, spec, groups, env).listeners == p.listeners + ListenerStatuses(start, spec, groups)
  {
    if groups != [] {
      var front, last := groups[..|groups| - 1], groups[|groups| - 1];
      GroupsTrack(start, spec, servers, env, p, front);
      GroupAdds(start, spec, servers, env, AddGroups(p, spec, front, env), last);
      GroupsListen(start, spec, servers, env, p, front);
    }
  }

  // ---- All writes of a pass ----

  lemma RbacAdds(start: Objects, spec: Spec, servers: string, env: Environment, p: Progress)
    requires Tracks(start, spec, servers, env, p)
    ensures var q := AddRbac(p, spec, env);
            && Tracks(start, spec, servers, env, q)
            && Adds(p, q, {ServiceAccountKey(spec), RoleBindingKey(spec)})
            && q.listeners == p.listeners
  {
    var key := ServiceAccountKey(spec);
    AddTracks(start, spec, servers, env, p, key, ApplyServiceAccount);
    AddAdds(p, key, Plain(spec, key), ApplyServiceAccount, env);
    var q := Add(p, key, Plain(spec, key), ApplyServiceAccount, env);
    AddTracks(start, spec, servers, env, q, RoleBindingKey(spec), ApplyRoleBinding);
    AddAdds(q, RoleBindingKey(spec), Plain(spec, RoleBindingKey(spec)), ApplyRoleBinding, env);
    AddsChain(p, q, AddRbac(p, spec, env), {key}, {RoleBindingKey(spec)});
  }

  function PdbKeys(spec: Spec, brokers: Brokers): set<Key> {
    if brokers.pdbEnabled then {PdbKey(spec)} else {}
  }

  lemma PdbsAdd(start: Objects, spec: Spec, servers: string, env: Environment, p: Progress, brokers: Brokers)
    requires Tracks(start, spec, servers, env, p)
    ensures var q := AddPdbs(p, spec, brokers, env);
            && Tracks(start, spec, servers, env, q)
            && Adds(p, q, PdbKeys(spec, brokers))
            && q.listeners == p.listeners
  {
    AddTracks(start, spec, servers, env, p, PdbKey(spec), FailedToCreatePdb);
    AddAdds(p, PdbKey(spec), Plain(spec, PdbKey(spec)), FailedToCreatePdb, env);
  }

  function DiscoveryKeys(spec: Spec): set<Key> {
    {DiscoveryKey(spec), NodePortDiscoveryKey(spec)}
  }

  lemma DiscoveryAdds(start: Objects, spec: Spec, servers: string, env: Environment, p: Progress)
    requires Tracks(start, spec, servers, env, p)
    requires p.error.None? ==>
               var found := ListenerHosts(p.listeners, spec.security.DiscoveryPortName());
               found.Ok? ==> BootstrapServers(found.value) == servers
    ensures var q := AddDiscovery(p, spec, env);
            && Tracks(start, spec, servers, env, q)
            && Adds(p, q, DiscoveryKeys(spec))
            && (q.error.None? ==> !env.fails(BuildDiscovery)
                                  && ListenerHosts(p.listeners, spec.security.DiscoveryPortName()).Ok?)
  {
    var found := ListenerHosts(p.listeners, spec.security.DiscoveryPortName());
    if p.error.None? && !env.fails(BuildDiscovery) && found.Ok? {
      var key, key' := DiscoveryKey(spec), NodePortDiscoveryKey(spec);
      AddTracks(start, spec, servers, env, p, key, ApplyDiscoveryConfig);
      AddAdds(p, key, DiscoveryManifest(spec, key, found.value), ApplyDiscoveryConfig, env);
      var q := Add(p, key, DiscoveryManifest(spec, key, found.value), ApplyDiscoveryConfig, env);
      AddTracks(start, spec, servers, env, q, key', ApplyDiscoveryConfig);
      AddAdds(q, key', DiscoveryManifest(spec, key', found.value), ApplyDiscoveryConfig, env);
      AddsChain(p, q, AddDiscovery(p, spec, env), {key}, {key'});
    }
  }

  lemma {:induction false} AllGroupKeysLength(spec: Spec, groups: seq<string>)
    ensures |AllGroupKeys(spec, groups)| == 4 * |groups|
  {
    if groups != [] { AllGroupKeysLength(spec, groups[..|groups| - 1]); }
  }

  lemma {:induction false} KeySetSize(keys: seq<Key>)
    requires NoDuplicates(keys)
    ensures |KeySet(keys)| == |keys|
  {
    if keys != [] {
      var front, last := keys[..|keys| - 1], keys[|keys| - 1];
      KeySetSize(front);
      assert keys == front + [last];
      assert last !in KeySet(front) && KeySet(keys) == KeySet(front) + {last};
    }
  }

  // How many objects a cluster consists of.
  lemma WantedCount(spec: Spec)
    requires WellFormed(spec) && spec.brokers.Some?
    ensures |Wanted(spec)| == 4 + 4 * |spec.brokers.value.groups| + if spec.brokers.value.pdbEnabled then 1 else 0
  {
    WritesDoNotCollide(spec);
    KeySetSize(WantedKeys(spec));
    AllGroupKeysLength(spec, spec.brokers.value.groups);
  }

  lemma WantedParts(spec: Spec)
    requires spec.brokers.Some?
    ensures Wanted(spec) == {ServiceAccountKey(spec), RoleBindingKey(spec)}
                            + KeySet(AllGroupKeys(spec, spec.brokers.value.groups))
                            + PdbKeys(spec, spec.brokers.value)
                            + DiscoveryKeys(spec)
  {
  }

  // The writes of a pass: what it recorded, all of it from the wanted keys, and all of the
  // wanted keys when nothing failed.
  lemma PassWrites(objects: Objects, spec: Spec, env: Environment)
    requires CheckError(spec, env).None?
    ensures var p := ApplyAll(objects, spec, env);
            && Tracks(objects, spec, Servers(objects, spec), env, p)
            && Adds(Progress(objects, {}, [], None), p, Wanted(spec))
            && (p.error.None? ==> && FoundHosts(objects, spec).Ok? && !env.fails(BuildDiscovery)
                                  && AllBuilt(env, spec.brokers.value.groups))
  {
    var servers, brokers := Servers(objects, spec), spec.brokers.value;
    var p0 := Progress(objects, {}, [], None);
    assert objects == Written(objects, spec, servers, {});
    RbacAdds(objects, spec, servers, env, p0);
    var p1 := AddRbac(p0, spec, env);
    GroupsTrack(objects, spec, servers, env, p1, brokers.groups);
    GroupsAdd(objects, spec, servers, env, p1, brokers.groups);
    var p2 := AddGroups(p1, spec, brokers.groups, env);
    if p2.error.None? {
      GroupsListen(objects, spec, servers, env, p1, brokers.groups);
      GroupsBuilt(spec, env, p1, brokers.groups);
    }
    PdbsAdd(objects, spec, servers, env, p2, brokers);
    var p3 := AddPdbs(p2, spec, brokers, env);
    assert p3.error.None? ==> p3.listeners == ListenerStatuses(objects, spec, brokers.groups);
    DiscoveryAdds(objects, spec, servers, env, p3);
    var p4 := AddDiscovery(p3, spec, env);
    var rbac, groups := {ServiceAccountKey(spec), RoleBindingKey(spec)}, KeySet(AllGroupKeys(spec, brokers.groups));
    AddsChain(p0, p1, p2, rbac, groups);
    AddsChain(p0, p2, p3, rbac + groups, PdbKeys(spec, brokers));
    AddsChain(p0, p3, p4, rbac + groups + PdbKeys(spec, brokers), DiscoveryKeys(spec));
    WantedParts(spec);
  }

  // ---- What a pass may do ----

  // A pass that fails its checks, and so any pass over a configuration that is not accepted,
  // writes nothing, nor does one whose first write fails.
  lemma NothingBeforeTheFirstWrite(objects: Objects, spec: Spec, env: Environment)
    ensures CheckError(spec, env).Some? || env.fails(Apply(ServiceAccountKey(spec))) ==>
              Pass(objects, spec, env).error.Some? && Pass(objects, spec, env).objects == objects
    ensures Pass(objects, spec, env).objects != objects ==> spec.security.Accepted() && spec.brokers.Some?
  {
    if CheckError(spec, env).None? && env.fails(Apply(ServiceAccountKey(spec))) {
      var p := AddRbac(Progress(objects, {}, [], None), spec, env);
      assert p.error.Some? && p.objects == objects;
      FailedStays(p, spec, spec.brokers.value, env);
      assert ApplyAll(objects, spec, env) == p;
    }
  }

  lemma CheckedIsAccepted(spec: Spec, env: Environment)
    requires CheckError(spec, env).None?
    ensures spec.security.Accepted()
  {
  }

  // A failed pass that will not be retried has written nothing.
  lemma UnretriedPassWroteNothing(objects: Objects, spec: Spec, env: Environment)
    requires Pass(objects, spec, env).error.Some? && ActionAfter(Pass(objects, spec, env)) == AwaitChange
    ensures Pass(objects, spec, env).objects == objects
  {
    if CheckError(spec, env).None? { PassWrites(objects, spec, env); }
  }

  // An object is deleted only by a pass in which every write succeeded, and only if that
  // pass's specification does not want it.
  lemma OnlyUnwantedIsDeleted(objects: Objects, spec: Spec, env: Environment, k: Key)
    requires k in objects && k !in Pass(objects, spec, env).objects
    ensures k !in Wanted(spec) && objects[k].owned
    ensures CheckError(spec, env).None? && ApplyAll(objects, spec, env).error.None?
    ensures forall w | w in Wanted(spec) :: !env.fails(Apply(w))
  {
    if CheckError(spec, env).None? { PassWrites(objects, spec, env); }
  }

  // A pass that fails while writing deletes nothing, touches only wanted keys, and writes
  // only what the specification asks for.
  lemma FailedPassFrame(objects: Objects, spec: Spec, env: Environment, k: Key)
    requires ApplyAll(objects, spec, env).error.Some?
    ensures var after := Pass(objects, spec, env).objects;
            && (k in objects ==> k in after)
            && (k in after ==> (k in objects && after[k] == objects[k])
                               || (k in Wanted(spec)
                                   && after[k] == Object(true, Desired(spec, Servers(objects, spec), k), StatusAt(objects, k))))
  {
    if CheckError(spec, env).None? { PassWrites(objects, spec, env); }
  }

  // ---- Where a failure-free pass ends ----

  // The wanted objects, and what others own.
  function Settled(objects: Objects, spec: Spec): Objects {
    map k | k in objects.Keys + Wanted(spec) && (k in Wanted(spec) || !objects[k].owned) ::
      if k in Wanted(spec) then Object(true, Desired(spec, Servers(objects, spec), k), StatusAt(objects, k)) else objects[k]
  }

  function OwnedKeys(objects: Objects): set<Key> {
    set k | k in objects && objects[k].owned
  }

  lemma PassDeletes(objects: Objects, spec: Spec, env: Environment)
    requires Pass(objects, spec, env).error.None?
    ensures CheckError(spec, env).None?
    ensures var p := ApplyAll(objects, spec, env);
            p.error.None? && Pass(objects, spec, env).objects == p.objects - Orphans(p.objects, p.applied)
  {
  }

  lemma SuccessfulWrites(objects: Objects, spec: Spec, env: Environment)
    requires CheckError(spec, env).None? && ApplyAll(objects, spec, env).error.None?
    ensures ApplyAll(objects, spec, env).applied == Wanted(spec)
    ensures ApplyAll(objects, spec, env).objects == Written(objects, spec, Servers(objects, spec), Wanted(spec))
  {
    PassWrites(objects, spec, env);
  }

  lemma PassSettles(objects: Objects, spec: Spec, env: Environment)
    requires Pass(objects, spec, env).error.None?
    ensures Pass(objects, spec, env).objects == Settled(objects, spec)
  {
    PassDeletes(objects, spec, env);
    SuccessfulWrites(objects, spec, env);
    SettledIsWritten(objects, spec);
  }

  lemma SettledIsWritten(objects: Objects, spec: Spec)
    ensures var written := Written(objects, spec, Servers(objects, spec), Wanted(spec));
            Settled(objects, spec) == written - Orphans(written, Wanted(spec))
  {
  }

  // From any state, exactly the wanted keys are owned afterwards, each with the manifest the
  // specification asks for; what others own stays.
  lemma PassConverges(objects: Objects, spec: Spec, env: Environment)
    requires Pass(objects, spec, env).error.None?
    ensures var after := Pass(objects, spec, env).objects;
            && OwnedKeys(after) == Wanted(spec)
            && (forall k | k in Wanted(spec) :: after[k].manifest == Desired(spec, Servers(objects, spec), k))
            && (forall k | k !in Wanted(spec) :: k in after <==> k in objects && !objects[k].owned)
            && (forall k | k in after && k !in Wanted(spec) :: after[k] == objects[k])
            && (forall k :: k in after && k in objects ==> after[k].status == objects[k].status)
  {
    PassSettles(objects, spec, env);
  }

  // A pass succeeds exactly when nothing outside fails, the configuration is accepted and
  // the statuses of the bootstrap Listeners have the discovery port.
  lemma PassSucceedsIff(objects: Objects, spec: Spec, env: Environment)
    ensures Pass(objects, spec, env).error.None? <==>
            && CheckError(spec, env).None?
            && (forall k | k in Wanted(spec) :: !env.fails(Apply(k)))
            && AllBuilt(env, spec.brokers.value.groups)
            && !env.fails(BuildDiscovery) && FoundHosts(objects, spec).Ok?
            && !env.fails(Delete) && !env.fails(PatchStatus)
  {
    if CheckError(spec, env).None? {
      PassWrites(objects, spec, env);
      if (forall k | k in Wanted(spec) :: !env.fails(Apply(k)))
         && AllBuilt(env, spec.brokers.value.groups)
         && !env.fails(BuildDiscovery) && FoundHosts(objects, spec).Ok? {
        WritesSucceed(objects, spec, env);
      }
    }
  }

  lemma {:induction false} GroupsSucceed(p: Progress, spec: Spec, groups: seq<string>, env: Environment)
    requires p.error.None?
    requires forall k | k in AllGroupKeys(spec, groups) :: !env.fails(Apply(k))
    requires AllBuilt(env, groups)
    ensures AddGroups(p, spec, groups, env).error.None?
  {
    if groups != [] {
      var front, last := groups[..|groups| - 1], groups[|groups| - 1];
      assert groups == front + [last];
      GroupsSucceed(p, spec, front, env);
      var keys := GroupKeys(spec, last);
      assert forall k | k in keys :: k in AllGroupKeys(spec, groups);
      assert keys[0] in keys && keys[1] in keys && keys[2] in keys && keys[3] in keys;
    }
  }

  lemma WritesSucceed(objects: Objects, spec: Spec, env: Environment)
    requires CheckError(spec, env).None?
    requires forall k | k in Wanted(spec) :: !env.fails(Apply(k))
    requires AllBuilt(env, spec.brokers.value.groups)
    requires !env.fails(BuildDiscovery) && FoundHosts(objects, spec).Ok?
    ensures ApplyAll(objects, spec, env).error.None?
  {
    var servers, brokers := Servers(objects, spec), spec.brokers.value;
    WantedParts(spec);
    assert forall k | k in AllGroupKeys(spec, brokers.groups) :: k in KeySet(AllGroupKeys(spec, brokers.groups));
    var p0 := Progress(objects, {}, [], None);
    assert objects == Written(objects, spec, servers, {});
    RbacAdds(objects, spec, servers, env, p0);
    var p1 := AddRbac(p0, spec, env);
    assert ServiceAccountKey(spec) in Wanted(spec) && RoleBindingKey(spec) in Wanted(spec);
    GroupsSucceed(p1, spec, brokers.groups, env);
    GroupsListen(objects, spec, servers, env, p1, brokers.groups);
    var p2 := AddGroups(p1, spec, brokers.groups, env);
    var p3 := AddPdbs(p2, spec, brokers, env);
    assert p3.listeners == ListenerStatuses(objects, spec, brokers.groups);
    assert DiscoveryKey(spec) in Wanted(spec) && NodePortDiscoveryKey(spec) in Wanted(spec);
  }

  // ---- Passing twice ----

  // The same specification, with its role groups iterated in another order.
  ghost predicate SameUpToGroupOrder(a: Spec, b: Spec) {
    && a.(brokers := b.brokers) == b
    && a.brokers.Some? && b.brokers.Some?
    && a.brokers.value.pdbEnabled == b.brokers.value.pdbEnabled
    && forall g :: g in a.brokers.value.groups <==> g in b.brokers.value.groups
  }

  lemma SameWanted(a: Spec, b: Spec)
    requires SameUpToGroupOrder(a, b)
    ensures Wanted(a) == Wanted(b)
  {
    WantedParts(a);
    WantedParts(b);
    forall k
      ensures k in AllGroupKeys(a, a.brokers.value.groups) <==> k in AllGroupKeys(b, b.brokers.value.groups)
    {
      AllGroupKeysExact(a, a.brokers.value.groups, k);
      AllGroupKeysExact(b, b.brokers.value.groups, k);
      assert forall g :: GroupKeys(a, g) == GroupKeys(b, g);
    }
    assert KeySet(AllGroupKeys(a, a.brokers.value.groups)) == KeySet(AllGroupKeys(b, b.brokers.value.groups));
  }

  // After a successful pass another one, with the groups in any order, leaves every object but
  // the two discovery ConfigMaps as it is. These change exactly when the iteration order
  // changes the published list of servers.
  lemma SecondPassChangesNothingIff(objects: Objects, a: Spec, b: Spec, env: Environment, env': Environment)
    requires SameUpToGroupOrder(a, b)
    requires Pass(objects, a, env).error.None?
    requires Pass(Pass(objects, a, env).objects, b, env').error.None?
    ensures var once := Pass(objects, a, env).objects;
            var twice := Pass(once, b, env').objects;
            && once.Keys == twice.Keys
            && (forall k | k in once && !IsDiscoveryKey(a, k) :: twice[k] == once[k])
            && (twice == once <==> Servers(once, b) == Servers(objects, a))
  {
    PassSettles(objects, a, env);
    PassSettles(Settled(objects, a), b, env');
    SameWanted(a, b);
    SettledTwice(objects, a, b);
  }

  lemma SettledTwice(objects: Objects, a: Spec, b: Spec)
    requires SameUpToGroupOrder(a, b) && Wanted(a) == Wanted(b)
    ensures var once := Settled(objects, a);
            var twice := Settled(once, b);
            && once.Keys == twice.Keys
            && (forall k | k in once && !IsDiscoveryKey(a, k) :: twice[k] == once[k])
            && (twice == once <==> Servers(once, b) == Servers(objects, a))
  {
    var once := Settled(objects, a);
    var twice := Settled(once, b);
    forall k
      ensures k in once <==> k in twice
      ensures k in once && !IsDiscoveryKey(a, k) ==> twice[k] == once[k]
      ensures k in once && Servers(once, b) == Servers(objects, a) ==> twice[k] == once[k]
    {
      SettledTwiceAt(objects, a, b, k);
    }
    DiscoveryIsWanted(a);
    assert once[DiscoveryKey(a)].manifest.servers == Some(Servers(objects, a));
    assert twice[DiscoveryKey(a)].manifest.servers == Some(Servers(once, b));
  }

  lemma SettledTwiceAt(objects: Objects, a: Spec, b: Spec, k: Key)
    requires SameUpToGroupOrder(a, b) && Wanted(a) == Wanted(b)
    ensures var once := Settled(objects, a);
            var twice := Settled(once, b);
            && (k in once <==> k in twice)
            && (k in once && !IsDiscoveryKey(a, k) ==> twice[k] == once[k])
            && (k in once && Servers(once, b) == Servers(objects, a) ==> twice[k] == once[k])
  {
    var once := Settled(objects, a);
    assert k in Wanted(a) ==> StatusAt(once, k) == StatusAt(objects, k);
    assert Desired(b, Servers(once, b), k)
        == if IsDiscoveryKey(a, k) then Desired(a, Servers(once, b), k) else Desired(a, Servers(objects, a), k);
  }

  lemma DiscoveryIsWanted(spec: Spec)
    requires spec.brokers.Some?
    ensures DiscoveryKey(spec) in Wanted(spec) && NodePortDiscoveryKey(spec) in Wanted(spec)
  {
    WantedParts(spec);
  }

  lemma {:induction false} SameStatuses(before: Objects, after: Objects, spec: Spec, groups: seq<string>)
    requires forall g | g in groups :: StatusAt(before, ListenerKey(spec, g)) == StatusAt(after, ListenerKey(spec, g))
    ensures ListenerStatuses(before, spec, groups) == ListenerStatuses(after, spec, groups)
  {
    if groups != [] {
      var front, last := groups[..|groups| - 1], groups[|groups| - 1];
      assert groups == front + [last] && last in groups;
      SameStatuses(before, after, spec, front);
    }
  }

  lemma ListenersAreWanted(spec: Spec)
    requires spec.brokers.Some?
    ensures forall g | g in spec.brokers.value.groups :: ListenerKey(spec, g) in Wanted(spec)
  {
    var groups := spec.brokers.value.groups;
    WantedParts(spec);
    forall g | g in groups
      ensures ListenerKey(spec, g) in Wanted(spec)
    {
      assert GroupKeys(spec, g)[0] in GroupKeys(spec, g);
      AllGroupKeysExact(spec, groups, ListenerKey(spec, g));
      assert ListenerKey(spec, g) in KeySet(AllGroupKeys(spec, groups));
    }
  }

  // In the same order, and with the Listener statuses as they were, nothing changes.
  lemma SecondPassIsIdle(objects: Objects, spec: Spec, env: Environment, env': Environment)
    requires Pass(objects, spec, env).error.None?
    requires Pass(Pass(objects, spec, env).objects, spec, env').error.None?
    ensures Pass(Pass(objects, spec, env).objects, spec, env').objects == Pass(objects, spec, env).objects
  {
    PassSettles(objects, spec, env);
    var groups := spec.brokers.value.groups;
    ListenersAreWanted(spec);
    SameStatuses(objects, Settled(objects, spec), spec, groups);
    SecondPassChangesNothingIff(objects, spec, spec, env, env');
  }
}
