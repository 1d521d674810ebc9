/**
 One reconcile pass (rust/operator-binary/src/kafka_controller.rs, `reconcile_kafka`): ordered
 writes, any of which can fail, and the deletion of orphans at the end. The pass is a method
 over the API server's objects, specified by a function on values.
 */
module Reconcile {
  import opened Common
  import opened Pods
  import opened Security
  import opened Discovery

  // ---- The cluster ----

  datatype Kind = ServiceAccount | RoleBinding | Listener | Service | ConfigMap | StatefulSet | PodDisruptionBudget

  datatype Key = Key(kind: Kind, name: string)

  // What the operator writes: text it renders from the specification and, in a discovery
  // ConfigMap, the bootstrap servers.
  datatype Manifest = Manifest(text: string, servers: Option<string>)

  // `owned` stands for the labels by which the operator finds its objects again; the status
  // is written by others.
  datatype Object = Object(owned: bool, manifest: Manifest, status: Option<Status>)

  type Objects = map<Key, Object>

  // ---- The specification of a KafkaCluster ----

  // `groups` lists the role groups in the iteration order of their hash map.
  datatype Brokers = Brokers(groups: seq<string>, pdbEnabled: bool)

  datatype Spec = Spec(
    name: string,
    security: KafkaTlsSecurity,
    brokers: Option<Brokers>,
    render: Key -> string)

  ghost predicate DistinctSeq(s: seq<string>) {
    forall i, j | 0 <= i < j < |s| :: s[i] != s[j]
  }

  // The keys of a hash map are distinct.
  ghost predicate WellFormed(spec: Spec) {
    spec.brokers.Some? ==> DistinctSeq(spec.brokers.value.groups)
  }

  // ---- What can go wrong ----

  datatype Error =
    | InvalidKafkaCluster
    | CreateClusterResources
    | NoBrokerRole
    | InvalidProductConfig
    | FailedToInitializeSecurityContext
    | FailedToValidateAuthenticationMethod
    | InvalidOpaConfig
    | ResolveVectorAggregatorAddress
    | BuildRbacResources
    | ApplyServiceAccount
    | ApplyRoleBinding
    | BuildRoleGroup
    | ApplyRoleService
    | ApplyRoleGroupService
    | ApplyRoleGroupConfig
    | ApplyRoleGroupStatefulSet
    | FailedToCreatePdb
    | BuildDiscoveryConfig
    | ApplyDiscoveryConfig
    | DeleteOrphans
    | ApplyStatus

  // What may fail for a reason outside the model, within one pass.
  datatype Operation =
    | Check(error: Error)
    | Build(group: string)
    | Apply(key: Key)
    | BuildDiscovery
    | Delete
    | PatchStatus

  // The outside of one pass: which operations fail, and which of the orphans are gone when
  // the deletion fails half way.
  datatype Environment = Environment(fails: Operation -> bool, deletedBeforeFailure: set<Key>)

  // ---- Keys ----

  function ServiceAccountKey(spec: Spec): Key {
    Key(ServiceAccount, spec.name + "-serviceaccount")
  }

  function RoleBindingKey(spec: Spec): Key {
    Key(RoleBinding, spec.name + "-rolebinding")
  }

  function ListenerKey(spec: Spec, group: string): Key {
    Key(Listener, BootstrapServiceName(spec.name, group))
  }

  function ServiceKey(spec: Spec, group: string): Key {
    Key(Service, ObjectName(spec.name, group))
  }

  function ConfigMapKey(spec: Spec, group: string): Key {
    Key(ConfigMap, ObjectName(spec.name, group))
  }

  function StatefulSetKey(spec: Spec, group: string): Key {
    Key(StatefulSet, ObjectName(spec.name, group))
  }

  function PdbKey(spec: Spec): Key {
    Key(PodDisruptionBudget, spec.name + "-broker")
  }

  function DiscoveryKey(spec: Spec): Key {
    Key(ConfigMap, spec.name)
  }

  function NodePortDiscoveryKey(spec: Spec): Key {
    Key(ConfigMap, spec.name + "-nodeport")
  }

  function GroupKeys(spec: Spec, group: string): seq<Key> {
    [ListenerKey(spec, group), ServiceKey(spec, group), ConfigMapKey(spec, group), StatefulSetKey(spec, group)]
  }

  function AllGroupKeys(spec: Spec, groups: seq<string>): seq<Key> {
    if groups == [] then []
    else AllGroupKeys(spec, groups[..|groups| - 1]) + GroupKeys(spec, groups[|groups| - 1])
  }

  // The keys of a failure-free pass, in the order of its writes.
  function WantedKeys(spec: Spec): seq<Key> {
    match spec.brokers
    case None => []
    case Some(brokers) =>
      [ServiceAccountKey(spec), RoleBindingKey(spec)]
      + AllGroupKeys(spec, brokers.groups)
      + (if brokers.pdbEnabled then [PdbKey(spec)] else [])
      + [DiscoveryKey(spec), NodePortDiscoveryKey(spec)]
  }

  function KeySet(keys: seq<Key>): set<Key> {
    set k | k in keys
  }

  function Wanted(spec: Spec): set<Key> {
    KeySet(WantedKeys(spec))
  }

  // ---- `ClusterResources` ----

  function StatusAt(objects: Objects, key: Key): Option<Status> {
    if key in objects then objects[key].status else None
  }

  // Server-side apply: the manifest is the operator's, the status stays.
  function Upsert(objects: Objects, key: Key, manifest: Manifest): Objects {
    objects[key := Object(true, manifest, StatusAt(objects, key))]
  }

  // `delete_orphaned_resources`: what is owned and was not applied.
  function Orphans(objects: Objects, applied: set<Key>): set<Key> {
    set k | k in objects && objects[k].owned && k !in applied
  }

  // ---- The pass, on values ----

  // How far a pass has come; after an error nothing more happens.
  datatype Progress = Progress(
    objects: Objects, applied: set<Key>, listeners: seq<Option<Status>>, error: Option<Error>)

  function Fail(p: Progress, error: Error): Progress {
    p.(error := Some(error))
  }

  // `cluster_resources.add(client, object).await.context(error)?`
  function Add(p: Progress, key: Key, manifest: Manifest, error: Error, env: Environment): Progress {
    if p.error.Some? then p
    else if env.fails(Apply(key)) then Fail(p, error)
    else p.(objects := Upsert(p.objects, key, manifest), applied := p.applied + {key})
  }

  function Plain(spec: Spec, key: Key): Manifest {
    Manifest(spec.render(key), None)
  }

  // The bootstrap Listener, whose applied object is kept for discovery.
  function AddListener(p: Progress, spec: Spec, group: string, env: Environment): Progress {
    var key := ListenerKey(spec, group);
    var q := Add(p, key, Plain(spec, key), ApplyRoleService, env);
    if q.error.Some? then q else q.(listeners := q.listeners + [StatusAt(q.objects, key)])
  }

  // One iteration of the loop over role groups: everything is built before anything is applied.
  function AddGroup(p: Progress, spec: Spec, group: string, env: Environment): Progress {
    if p.error.Some? then p
    else if env.fails(Build(group)) then Fail(p, BuildRoleGroup)
    else
      var p1 := AddListener(p, spec, group, env);
      var p2 := Add(p1, ServiceKey(spec, group), Plain(spec, ServiceKey(spec, group)), ApplyRoleGroupService, env);
      var p3 := Add(p2, ConfigMapKey(spec, group), Plain(spec, ConfigMapKey(spec, group)), ApplyRoleGroupConfig, env);
      Add(p3, StatefulSetKey(spec, group), Plain(spec, StatefulSetKey(spec, group)), ApplyRoleGroupStatefulSet, env)
  }

  function AddGroups(p: Progress, spec: Spec, groups: seq<string>, env: Environment): Progress {
    if groups == [] then p
    else AddGroup(AddGroups(p, spec, groups[..|groups| - 1], env), spec, groups[|groups| - 1], env)
  }

  function AddRbac(p: Progress, spec: Spec, env: Environment): Progress {
    var q := Add(p, ServiceAccountKey(spec), Plain(spec, ServiceAccountKey(spec)), ApplyServiceAccount, env);
    Add(q, RoleBindingKey(spec), Plain(spec, RoleBindingKey(spec)), ApplyRoleBinding, env)
  }

  // `add_pdbs`
  function AddPdbs(p: Progress, spec: Spec, brokers: Brokers, env: Environment): Progress {
    if brokers.pdbEnabled then Add(p, PdbKey(spec), Plain(spec, PdbKey(spec)), FailedToCreatePdb, env) else p
  }

  function DiscoveryManifest(spec: Spec, key: Key, hosts: Hosts): Manifest {
    Manifest(spec.render(key), Some(BootstrapServers(hosts)))
  }

  // Both ConfigMaps are built before either is applied.
  function AddDiscovery(p: Progress, spec: Spec, env: Environment): Progress {
    if p.error.Some? then p
    else if env.fails(BuildDiscovery) then Fail(p, BuildDiscoveryConfig)
    else match ListenerHosts(p.listeners, spec.security.DiscoveryPortName())
         case Err(_) => Fail(p, BuildDiscoveryConfig)
         case Ok(hosts) =>
           var q := Add(p, DiscoveryKey(spec), DiscoveryManifest(spec, DiscoveryKey(spec), hosts), ApplyDiscoveryConfig, env);
           Add(q, NodePortDiscoveryKey(spec), DiscoveryManifest(spec, NodePortDiscoveryKey(spec), hosts),
               ApplyDiscoveryConfig, env)
  }

  // The checks before the first write, in their order.
  function CheckError(spec: Spec, env: Environment): Option<Error> {
    if env.fails(Check(InvalidKafkaCluster)) then Some(InvalidKafkaCluster)
    else if env.fails(Check(CreateClusterResources)) then Some(CreateClusterResources)
    else if spec.brokers.None? then Some(NoBrokerRole)
    else if env.fails(Check(InvalidProductConfig)) then Some(InvalidProductConfig)
    else if Validation(spec.security.classes).Err? || env.fails(Check(FailedToInitializeSecurityContext)) then
      Some(FailedToInitializeSecurityContext)
    else if !spec.security.ValidAuthenticationMethods() then Some(FailedToValidateAuthenticationMethod)
    else if env.fails(Check(InvalidOpaConfig)) then Some(InvalidOpaConfig)
    else if env.fails(Check(ResolveVectorAggregatorAddress)) then Some(ResolveVectorAggregatorAddress)
    else if env.fails(Check(BuildRbacResources)) then Some(BuildRbacResources)
    else None
  }

  // Everything up to the deletion of orphans.
  function ApplyAll(objects: Objects, spec: Spec, env: Environment): Progress {
    var start := Progress(objects, {}, [], CheckError(spec, env));
    if start.error.Some? then start
    else
      var brokers := spec.brokers.value;
      var p1 := AddRbac(start, spec, env);
      var p2 := AddGroups(p1, spec, brokers.groups, env);
      var p3 := AddPdbs(p2, spec, brokers, env);
      AddDiscovery(p3, spec, env)
  }

  function DeleteOrphaned(p: Progress, env: Environment): Progress {
    var orphans := Orphans(p.objects, p.applied);
    if p.error.Some? then p
    else if env.fails(Delete) then
      Fail(p.(objects := p.objects - (orphans * env.deletedBeforeFailure)), DeleteOrphans)
    else p.(objects := p.objects - orphans)
  }

  function PatchClusterStatus(p: Progress, env: Environment): Progress {
    if p.error.None? && env.fails(PatchStatus) then Fail(p, ApplyStatus) else p
  }

  function Pass(objects: Objects, spec: Spec, env: Environment): Progress {
    PatchClusterStatus(DeleteOrphaned(ApplyAll(objects, spec, env), env), env)
  }

  // ---- What follows a pass ----

  datatype Action = AwaitChange | Requeue(seconds: nat)

  // `error_policy`
  function ErrorPolicy(error: Error): Action {
    match error
    case InvalidKafkaCluster => AwaitChange
    case _ => Requeue(5)
  }

  function ActionAfter(p: Progress): Action {
    match p.error
    case None => AwaitChange
    case Some(error) => ErrorPolicy(error)
  }

  // ---- The pass, on the API server ----

  class ApiServer {
    var objects: Objects

    constructor (objects: Objects)
      ensures this.objects == objects
    {
      this.objects := objects;
    }
  }

  class ClusterResources {
    const server: ApiServer
    var applied: set<Key>

    constructor (server: ApiServer)
      ensures this.server == server && applied == {}
    {
      this.server := server;
      applied := {};
    }

    // Applies the object and records it; on failure nothing changes.
    method Add(key: Key, manifest: Manifest, fails: bool) returns (r: Result<Object, ()>)
      modifies this, server
      ensures fails ==> r.Err? && server.objects == old(server.objects) && applied == old(applied)
      ensures !fails ==> && server.objects == Upsert(old(server.objects), key, manifest)
                         && applied == old(applied) + {key}
                         && r == Ok(server.objects[key])
    {
      if fails { return Err(()); }
      server.objects := Upsert(server.objects, key, manifest);
      applied := applied + {key};
      r := Ok(server.objects[key]);
    }

    // Deletes what is owned and was not applied; a failure may leave some of it.
    method DeleteOrphanedResources(fails: bool, deletedBeforeFailure: set<Key>) returns (ok: bool)
      modifies server
      ensures ok == !fails
      ensures server.objects
           == old(server.objects)
              - if fails then Orphans(old(server.objects), applied) * deletedBeforeFailure
                else Orphans(old(server.objects), applied)
    {
      var orphans := Orphans(server.objects, applied);
      server.objects := server.objects - if fails then orphans * deletedBeforeFailure else orphans;
      ok := !fails;
    }
  }

  // What a pass in the middle of its work looks like as a value.
  ghost function ProgressOf(resources: ClusterResources, listeners: seq<Option<Status>>, error: Option<Error>): Progress
    reads resources, resources.server
  {
    Progress(resources.server.objects, resources.applied, listeners, error)
  }

  // `cluster_resources.add(..).await.context(error)`, without using the result.
  method AddOne(
      resources: ClusterResources, key: Key, manifest: Manifest, error: Error, env: Environment,
      ghost listeners: seq<Option<Status>>)
    returns (e: Option<Error>)
    modifies resources, resources.server
    ensures ProgressOf(resources, listeners, e) == Add(old(ProgressOf(resources, listeners, None)), key, manifest, error, env)
  {
    var r := resources.Add(key, manifest, env.fails(Apply(key)));
    e := if r.Err? then Some(error) else None;
  }

  // One iteration of the loop over role groups.
  method ReconcileGroup(
      resources: ClusterResources, spec: Spec, group: string, env: Environment, listeners: seq<Option<Status>>)
    returns (bootstrapListeners: seq<Option<Status>>, e: Option<Error>)
    modifies resources, resources.server
    ensures ProgressOf(resources, bootstrapListeners, e)
         == AddGroup(old(ProgressOf(resources, listeners, None)), spec, group, env)
  {
    bootstrapListeners := listeners;
    if env.fails(Build(group)) { return bootstrapListeners, Some(BuildRoleGroup); }
    var key := ListenerKey(spec, group);
    var r := resources.Add(key, Plain(spec, key), env.fails(Apply(key)));
    if r.Err? { return bootstrapListeners, Some(ApplyRoleService); }
    bootstrapListeners := bootstrapListeners + [r.value.status];
    key := ServiceKey(spec, group);
    e := AddOne(resources, key, Plain(spec, key), ApplyRoleGroupService, env, bootstrapListeners);
    if e.Some? { return; }
    key := ConfigMapKey(spec, group);
    e := AddOne(resources, key, Plain(spec, key), ApplyRoleGroupConfig, env, bootstrapListeners);
    if e.Some? { return; }
    key := StatefulSetKey(spec, group);
    e := AddOne(resources, key, Plain(spec, key), ApplyRoleGroupStatefulSet, env, bootstrapListeners);
  }

  method ReconcileGroups(
      resources: ClusterResources, spec: Spec, groups: seq<string>, env: Environment)
    returns (bootstrapListeners: seq<Option<Status>>, e: Option<Error>)
    modifies resources, resources.server
    ensures ProgressOf(resources, bootstrapListeners, e)
         == AddGroups(old(ProgressOf(resources, [], None)), spec, groups, env)
  {
    bootstrapListeners := [];
    e := None;
    ghost var start := ProgressOf(resources, [], None);
    for i := 0 to |groups|
      invariant e == None
      invariant ProgressOf(resources, bootstrapListeners, e) == AddGroups(start, spec, groups[..i], env)
    {
      assert groups[..i + 1][..i] == groups[..i];
      bootstrapListeners, e := ReconcileGroup(resources, spec, groups[i], env, bootstrapListeners);
      if e.Some? {
        FailedGroupsStay(ProgressOf(resources, bootstrapListeners, e), start, spec, groups, i + 1, env);
        return;
      }
    }
    assert groups[..|groups|] == groups;
  }

  // Once a group has failed, the later ones change nothing.
  lemma {:induction false} FailedGroupsStay(
      p: Progress, start: Progress, spec: Spec, groups: seq<string>, i: nat, env: Environment)
    requires i <= |groups| && p == AddGroups(start, spec, groups[..i], env) && p.error.Some?
    ensures AddGroups(start, spec, groups, env) == p
    decreases |groups| - i
  {
    if i == |groups| {
      assert groups[..i] == groups;
    } else {
      assert groups[..i + 1][..i] == groups[..i];
      FailedGroupsStay(p, start, spec, groups, i + 1, env);
    }
  }

  method ReconcileDiscovery(
      resources: ClusterResources, spec: Spec, env: Environment, listeners: seq<Option<Status>>)
    returns (e: Option<Error>)
    modifies resources, resources.server
    ensures ProgressOf(resources, listeners, e) == AddDiscovery(old(ProgressOf(resources, listeners, None)), spec, env)
  {
    if env.fails(BuildDiscovery) { return Some(BuildDiscoveryConfig); }
    var hosts := ListenerHosts(listeners, spec.security.DiscoveryPortName());
    if hosts.Err? { return Some(BuildDiscoveryConfig); }
    var key := DiscoveryKey(spec);
    e := AddOne(resources, key, DiscoveryManifest(spec, key, hosts.value), ApplyDiscoveryConfig, env, listeners);
    if e.Some? { return; }
    key := NodePortDiscoveryKey(spec);
    e := AddOne(resources, key, DiscoveryManifest(spec, key, hosts.value), ApplyDiscoveryConfig, env, listeners);
  }

  // `reconcile_kafka`
  method ReconcileKafka(server: ApiServer, spec: Spec, env: Environment) returns (r: Result<Action, Error>)
    modifies server
    ensures server.objects == Pass(old(server.objects), spec, env).objects
    ensures r == match Pass(old(server.objects), spec, env).error
                 case None => Ok(AwaitChange)
                 case Some(e) => Err(e)
  {
    var check := CheckError(spec, env);
    if check.Some? { return Err(check.value); }
    var resources := new ClusterResources(server);
    var brokers := spec.brokers.value;

    var key := ServiceAccountKey(spec);
    var e := AddOne(resources, key, Plain(spec, key), ApplyServiceAccount, env, []);
    if e.Some? {
      FailedStays(ProgressOf(resources, [], e), spec, brokers, env);
      return Err(e.value);
    }
    key := RoleBindingKey(spec);
    e := AddOne(resources, key, Plain(spec, key), ApplyRoleBinding, env, []);
    if e.Some? {
      FailedStays(ProgressOf(resources, [], e), spec, brokers, env);
      return Err(e.value);
    }
    var bootstrapListeners: seq<Option<Status>>;
    bootstrapListeners, e := ReconcileGroups(resources, spec, brokers.groups, env);
    if e.Some? { return Err(e.value); }
    if brokers.pdbEnabled {
      key := PdbKey(spec);
      e := AddOne(resources, key, Plain(spec, key), FailedToCreatePdb, env, bootstrapListeners);
      if e.Some? { return Err(e.value); }
    }
    e := ReconcileDiscovery(resources, spec, env, bootstrapListeners);
    if e.Some? { return Err(e.value); }
    var ok := resources.DeleteOrphanedResources(env.fails(Delete), env.deletedBeforeFailure);
    if !ok { return Err(DeleteOrphans); }
    if env.fails(PatchStatus) { return Err(ApplyStatus); }
    r := Ok(AwaitChange);
  }

  lemma FailedStays(p: Progress, spec: Spec, brokers: Brokers, env: Environment)
    requires p.error.Some?
    ensures AddGroups(p, spec, brokers.groups, env) == p
  {
    assert brokers.groups[..0] == [];
    FailedGroupsStay(p, p, spec, brokers.groups, 0, env);
  }
}
