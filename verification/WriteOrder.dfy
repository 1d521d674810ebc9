/**
 The order of the writes of a pass: wherever it stops, it has written a prefix of one list.
 */
module WriteOrder {
  import opened Common
  import opened Discovery
  import opened Reconcile
  import opened PassTheorems

  // The error for an object that could not be applied.
  function ErrorOf(spec: Spec, k: Key): Error {
    match k.kind
    case ServiceAccount => ApplyServiceAccount
    case RoleBinding => ApplyRoleBinding
    case Listener => ApplyRoleService
    case Service => ApplyRoleGroupService
    case ConfigMap => if IsDiscoveryKey(spec, k) then ApplyDiscoveryConfig else ApplyRoleGroupConfig
    case StatefulSet => ApplyRoleGroupStatefulSet
    case PodDisruptionBudget => FailedToCreatePdb
  }

  // The reason why the writes stopped before the `n`th: it could not be applied, or it is the
  // first of those of a role group, or of discovery, which could not be built.
  ghost predicate Blames(spec: Spec, env: Environment, keys: seq<Key>, n: nat, error: Error) {
    && n < |keys|
    && (|| (env.fails(Apply(keys[n])) && error == ErrorOf(spec, keys[n]))
        || (error == BuildRoleGroup && exists g :: keys[n] == ListenerKey(spec, g) && env.fails(Build(g)))
        || (error == BuildDiscoveryConfig && keys[n] == DiscoveryKey(spec)))
  }

  // `after` has recorded the first `n` of `keys` on top of `before`, all of them unless there
  // is an error.
  ghost predicate Recorded(spec: Spec, env: Environment, before: Progress, after: Progress, keys: seq<Key>, n: nat) {
    && n <= |keys|
    && after.applied == before.applied + KeySet(keys[..n])
    && (after.error.None? ==> n == |keys| && before.error.None?)
    && (before.error.None? && after.error.Some? ==> Blames(spec, env, keys, n, after.error.value))
    && (before.error.Some? ==> after == before)
  }

  ghost predicate InOrder(spec: Spec, env: Environment, before: Progress, after: Progress, keys: seq<Key>) {
    exists n: nat :: Recorded(spec, env, before, after, keys, n)
  }

  lemma NothingRecorded(spec: Spec, env: Environment, p: Progress, after: Progress, keys: seq<Key>)
    requires after.error.Some? && after.applied == p.applied && (p.error.Some? ==> after == p)
    requires p.error.None? ==> Blames(spec, env, keys, 0, after.error.value)
    ensures InOrder(spec, env, p, after, keys)
  {
    assert KeySet(keys[..0]) == {};
    assert Recorded(spec, env, p, after, keys, 0);
  }

  lemma AddInOrder(spec: Spec, p: Progress, key: Key, manifest: Manifest, error: Error, env: Environment)
    requires error == ErrorOf(spec, key)
    ensures InOrder(spec, env, p, Add(p, key, manifest, error, env), [key])
  {
    var q := Add(p, key, manifest, error, env);
    if q.error.Some? {
      NothingRecorded(spec, env, p, q, [key]);
    } else {
      assert [key][..1] == [key] && KeySet([key]) == {key};
      assert Recorded(spec, env, p, q, [key], 1);
    }
  }

  lemma InOrderChain(spec: Spec, env: Environment, a: Progress, b: Progress, c: Progress, first: seq<Key>, second: seq<Key>)
    requires InOrder(spec, env, a, b, first) && InOrder(spec, env, b, c, second)
    ensures InOrder(spec, env, a, c, first + second)
  {
    var m: nat :| Recorded(spec, env, a, b, first, m);
    var n: nat :| Recorded(spec, env, b, c, second, n);
    if b.error.Some? {
      assert (first + second)[..m] == first[..m];
      assert m < |first| ==> (first + second)[m] == first[m];
      assert Recorded(spec, env, a, c, first + second, m);
    } else {
      assert first[..m] == first;
      assert (first + second)[..m + n] == first + second[..n];
      assert KeySet(first + second[..n]) == KeySet(first) + KeySet(second[..n]);
      assert n < |second| ==> (first + second)[m + n] == second[n];
      assert Recorded(spec, env, a, c, first + second, m + n);
    }
  }

  lemma AddAfter(
      spec: Spec, a: Progress, p: Progress, keys: seq<Key>, key: Key, manifest: Manifest, error: Error, env: Environment)
    requires error == ErrorOf(spec, key)
    requires InOrder(spec, env, a, p, keys)
    ensures InOrder(spec, env, a, Add(p, key, manifest, error, env), keys + [key])
  {
    AddInOrder(spec, p, key, manifest, error, env);
    InOrderChain(spec, env, a, p, Add(p, key, manifest, error, env), keys, [key]);
  }

  lemma ListenerInOrder(p: Progress, spec: Spec, group: string, env: Environment)
    ensures InOrder(spec, env, p, AddListener(p, spec, group, env), [ListenerKey(spec, group)])
  {
    var key := ListenerKey(spec, group);
    var q := Add(p, key, Plain(spec, key), ApplyRoleService, env);
    AddInOrder(spec, p, key, Plain(spec, key), ApplyRoleService, env);
    var n: nat :| Recorded(spec, env, p, q, [key], n);
    assert Recorded(spec, env, p, AddListener(p, spec, group, env), [key], n);
  }

  lemma GroupInOrder(p: Progress, spec: Spec, group: string, env: Environment)
    ensures InOrder(spec, env, p, AddGroup(p, spec, group, env), GroupKeys(spec, group))
  {
    if p.error.Some? || env.fails(Build(group)) {
      assert GroupKeys(spec, group)[0] == ListenerKey(spec, group);
      NothingRecorded(spec, env, p, AddGroup(p, spec, group, env), GroupKeys(spec, group));
    } else {
      var p1 := AddListener(p, spec, group, env);
      ListenerInOrder(p, spec, group, env);
      RestInOrder(p, p1, spec, group, env);
    }
  }

  lemma GroupErrors(spec: Spec, group: string)
    ensures ErrorOf(spec, ServiceKey(spec, group)) == ApplyRoleGroupService
    ensures ErrorOf(spec, ConfigMapKey(spec, group)) == ApplyRoleGroupConfig
    ensures ErrorOf(spec, StatefulSetKey(spec, group)) == ApplyRoleGroupStatefulSet
  {
    GroupKeysAreNoDiscoveryKeys(spec, group);
    assert GroupKeys(spec, group)[2] == ConfigMapKey(spec, group);
  }

  lemma RestInOrder(p: Progress, p1: Progress, spec: Spec, group: string, env: Environment)
    requires InOrder(spec, env, p, p1, [ListenerKey(spec, group)])
    ensures var p2 := Add(p1, ServiceKey(spec, group), Plain(spec, ServiceKey(spec, group)), ApplyRoleGroupService, env);
            var p3 := Add(p2, ConfigMapKey(spec, group), Plain(spec, ConfigMapKey(spec, group)), ApplyRoleGroupConfig, env);
            InOrder(spec, env, p, Add(p3, StatefulSetKey(spec, group), Plain(spec, StatefulSetKey(spec, group)), ApplyRoleGroupStatefulSet, env),
                    GroupKeys(spec, group))
  {
    var listener, service := ListenerKey(spec, group), ServiceKey(spec, group);
    var configMap, statefulSet := ConfigMapKey(spec, group), StatefulSetKey(spec, group);
    GroupErrors(spec, group);
    AddAfter(spec, p, p1, [listener], service, Plain(spec, service), ApplyRoleGroupService, env);
    var p2 := Add(p1, service, Plain(spec, service), ApplyRoleGroupService, env);
    AddAfter(spec, p, p2, [listener] + [service], configMap, Plain(spec, configMap), ApplyRoleGroupConfig, env);
    var p3 := Add(p2, configMap, Plain(spec, configMap), ApplyRoleGroupConfig, env);
    AddAfter(spec, p, p3, [listener] + [service] + [configMap], statefulSet, Plain(spec, statefulSet), ApplyRoleGroupStatefulSet, env);
    assert [listener] + [service] + [configMap] + [statefulSet] == GroupKeys(spec, group);
  }

  lemma {:induction false} GroupsInOrder(p: Progress, spec: Spec, groups: seq<string>, env: Environment)
    ensures InOrder(spec, env, p, AddGroups(p, spec, groups, env), AllGroupKeys(spec, groups))
  {
    if groups == [] {
      assert KeySet([]) == {};
      assert Recorded(spec, env, p, p, [], 0);
    } else {
      var front, last := groups[..|groups| - 1], groups[|groups| - 1];
      GroupsInOrder(p, spec, front, env);
      GroupInOrder(AddGroups(p, spec, front, env), spec, last, env);
      InOrderChain(spec, env, p, AddGroups(p, spec, front, env), AddGroups(p, spec, groups, env),
                   AllGroupKeys(spec, front), GroupKeys(spec, last));
    }
  }

  lemma RbacInOrder(p: Progress, spec: Spec, env: Environment)
    ensures InOrder(spec, env, p, AddRbac(p, spec, env), [ServiceAccountKey(spec), RoleBindingKey(spec)])
  {
    var key, key' := ServiceAccountKey(spec), RoleBindingKey(spec);
    var q := Add(p, key, Plain(spec, key), ApplyServiceAccount, env);
    AddInOrder(spec, p, key, Plain(spec, key), ApplyServiceAccount, env);
    AddAfter(spec, p, q, [key], key', Plain(spec, key'), ApplyRoleBinding, env);
    assert [key] + [key'] == [key, key'];
  }

  lemma PdbsInOrder(p: Progress, spec: Spec, brokers: Brokers, env: Environment)
    ensures InOrder(spec, env, p, AddPdbs(p, spec, brokers, env), if brokers.pdbEnabled then [PdbKey(spec)] else [])
  {
    if brokers.pdbEnabled {
      AddInOrder(spec, p, PdbKey(spec), Plain(spec, PdbKey(spec)), FailedToCreatePdb, env);
    } else {
      assert KeySet([]) == {};
      assert Recorded(spec, env, p, p, [], 0);
    }
  }

  lemma DiscoveryInOrder(p: Progress, spec: Spec, env: Environment)
    ensures InOrder(spec, env, p, AddDiscovery(p, spec, env), [DiscoveryKey(spec), NodePortDiscoveryKey(spec)])
  {
    var key, key' := DiscoveryKey(spec), NodePortDiscoveryKey(spec);
    var found := ListenerHosts(p.listeners, spec.security.DiscoveryPortName());
    if p.error.Some? || env.fails(BuildDiscovery) || found.Err? {
      NothingRecorded(spec, env, p, AddDiscovery(p, spec, env), [key, key']);
    } else {
      var q := Add(p, key, DiscoveryManifest(spec, key, found.value), ApplyDiscoveryConfig, env);
      AddInOrder(spec, p, key, DiscoveryManifest(spec, key, found.value), ApplyDiscoveryConfig, env);
      AddAfter(spec, p, q, [key], key', DiscoveryManifest(spec, key', found.value), ApplyDiscoveryConfig, env);
      assert [key] + [key'] == [key, key'];
    }
  }

  lemma AllInOrder(objects: Objects, spec: Spec, env: Environment)
    requires CheckError(spec, env).None?
    ensures InOrder(spec, env, Progress(objects, {}, [], None), ApplyAll(objects, spec, env), WantedKeys(spec))
  {
    var brokers := spec.brokers.value;
    var p0 := Progress(objects, {}, [], None);
    var p1 := AddRbac(p0, spec, env);
    var p2 := AddGroups(p1, spec, brokers.groups, env);
    var p3 := AddPdbs(p2, spec, brokers, env);
    var p4 := AddDiscovery(p3, spec, env);
    var rbac, groups := [ServiceAccountKey(spec), RoleBindingKey(spec)], AllGroupKeys(spec, brokers.groups);
    var pdb := if brokers.pdbEnabled then [PdbKey(spec)] else [];
    RbacInOrder(p0, spec, env);
    GroupsInOrder(p1, spec, brokers.groups, env);
    InOrderChain(spec, env, p0, p1, p2, rbac, groups);
    PdbsInOrder(p2, spec, brokers, env);
    InOrderChain(spec, env, p0, p2, p3, rbac + groups, pdb);
    DiscoveryInOrder(p3, spec, env);
    InOrderChain(spec, env, p0, p3, p4, rbac + groups + pdb, [DiscoveryKey(spec), NodePortDiscoveryKey(spec)]);
  }

  // Wherever a pass stops, the cluster is what it was with a prefix of the wanted keys
  // written: never a StatefulSet without its ConfigMap, no discovery before the last group. The
  // error is about the next one.
  lemma WritesAreAPrefix(objects: Objects, spec: Spec, env: Environment) returns (n: nat)
    requires CheckError(spec, env).None?
    ensures n <= |WantedKeys(spec)|
    ensures ApplyAll(objects, spec, env).objects == Written(objects, spec, Servers(objects, spec), KeySet(WantedKeys(spec)[..n]))
    ensures ApplyAll(objects, spec, env).error.None? ==> n == |WantedKeys(spec)|
    ensures forall i | 0 <= i < n :: !env.fails(Apply(WantedKeys(spec)[i]))
    ensures ApplyAll(objects, spec, env).error.Some? ==>
              Blames(spec, env, WantedKeys(spec), n, ApplyAll(objects, spec, env).error.value)
  {
    var start, p, keys := Progress(objects, {}, [], None), ApplyAll(objects, spec, env), WantedKeys(spec);
    AllInOrder(objects, spec, env);
    PassWrites(objects, spec, env);
    n :| Recorded(spec, env, start, p, keys, n);
    assert p.applied == KeySet(keys[..n]);
    forall i | 0 <= i < n
      ensures !env.fails(Apply(keys[i]))
    {
      assert keys[..n][i] == keys[i];
      assert keys[i] in p.applied;
    }
  }
}
