/**
 How a pass ends: which checks it makes and which error it returns, what follows, and what a
 successful one publishes.
 */
module PassMeaning {
  import opened Common
  import opened Security
  import opened Discovery
  import opened BrokerMeaning
  import opened Reconcile
  import opened PassTheorems
  import opened WriteOrder
  import opened Runs

  // ---- Checks ----

  // The checks of a pass, in their order.
  const CHECKS := [
    InvalidKafkaCluster, CreateClusterResources, NoBrokerRole, InvalidProductConfig,
    FailedToInitializeSecurityContext, FailedToValidateAuthenticationMethod, InvalidOpaConfig,
    ResolveVectorAggregatorAddress, BuildRbacResources]

  // That a check finds fault: with the specification, or because something outside failed.
  ghost predicate Faulty(spec: Spec, env: Environment, check: Error) {
    match check
    case NoBrokerRole => spec.brokers.None?
    case FailedToInitializeSecurityContext =>
      || |spec.security.classes| > 1
      || (exists c :: c in spec.security.classes && !c.provider.Tls? && !c.provider.Kerberos?)
      || env.fails(Check(check))
    case FailedToValidateAuthenticationMethod => AsksForKerberos(spec.security) && spec.security.serverSecretClass.None?
    case _ => env.fails(Check(check))
  }

  lemma InitializationFaulty(s: KafkaTlsSecurity)
    ensures Validation(s.classes).Err? <==>
            |s.classes| > 1 || exists c :: c in s.classes && !c.provider.Tls? && !c.provider.Kerberos?
  {
    if |s.classes| == 1 { assert s.classes[0] in s.classes; }
  }

  // The error of the first check from `i` on that finds fault.
  ghost function FirstFault(spec: Spec, env: Environment, i: nat): Option<Error>
    requires i <= |CHECKS|
    decreases |CHECKS| - i
  {
    if i == |CHECKS| then None
    else if Faulty(spec, env, CHECKS[i]) then Some(CHECKS[i])
    else FirstFault(spec, env, i + 1)
  }

  lemma {:induction false} FirstFaultIff(spec: Spec, env: Environment, i: nat)
    requires i <= |CHECKS|
    ensures FirstFault(spec, env, i).None? <==> forall j | i <= j < |CHECKS| :: !Faulty(spec, env, CHECKS[j])
    ensures FirstFault(spec, env, i).Some? ==>
              exists j :: i <= j < |CHECKS| && FirstFault(spec, env, i) == Some(CHECKS[j]) && Faulty(spec, env, CHECKS[j])
                          && forall k | i <= k < j :: !Faulty(spec, env, CHECKS[k])
    decreases |CHECKS| - i
  {
    if i < |CHECKS| { FirstFaultIff(spec, env, i + 1); }
  }

  // The error is that of the first check that finds fault.
  lemma FirstFaultIsReported(spec: Spec, env: Environment)
    ensures CheckError(spec, env) == FirstFault(spec, env, 0)
  {
    InitializationFaulty(spec.security);
    ModeIff(spec.security);
    ChecksByName(spec, env);
    FirstFaultFrom(spec, env, 6);
    FirstFaultFrom(spec, env, 3);
    FirstFaultFrom(spec, env, 0);
  }

  // Three checks further.
  lemma FirstFaultFrom(spec: Spec, env: Environment, i: nat)
    requires i + 3 <= |CHECKS|
    ensures FirstFault(spec, env, i)
         == if Faulty(spec, env, CHECKS[i]) then Some(CHECKS[i])
            else if Faulty(spec, env, CHECKS[i + 1]) then Some(CHECKS[i + 1])
            else if Faulty(spec, env, CHECKS[i + 2]) then Some(CHECKS[i + 2])
            else FirstFault(spec, env, i + 3)
  {
    assert FirstFault(spec, env, i + 1) == if Faulty(spec, env, CHECKS[i + 1]) then Some(CHECKS[i + 1]) else FirstFault(spec, env, i + 2);
  }

  lemma ChecksByName(spec: Spec, env: Environment)
    ensures CHECKS[0] == InvalidKafkaCluster && CHECKS[1] == CreateClusterResources && CHECKS[2] == NoBrokerRole
    ensures CHECKS[3] == InvalidProductConfig && CHECKS[4] == FailedToInitializeSecurityContext
    ensures CHECKS[5] == FailedToValidateAuthenticationMethod && CHECKS[6] == InvalidOpaConfig
    ensures CHECKS[7] == ResolveVectorAggregatorAddress && CHECKS[8] == BuildRbacResources && |CHECKS| == 9
  {
  }

  // ---- What a cluster consists of ----

  // The objects of one role group.
  ghost predicate OfGroup(spec: Spec, g: string, k: Key) {
    var name := spec.name + "-broker-" + g;
    || (k.kind == Listener && k.name == name + "-bootstrap")
    || (k.kind in {Service, ConfigMap, StatefulSet} && k.name == name)
  }

  // The kinds and names of the wanted objects. What the ServiceAccount, the RoleBinding and the
  // PodDisruptionBudget are called is left to libraries.
  lemma WantedIff(spec: Spec, k: Key)
    requires spec.brokers.Some?
    ensures k in Wanted(spec) <==>
            || k == ServiceAccountKey(spec) || k == RoleBindingKey(spec)
            || (exists g :: g in spec.brokers.value.groups && OfGroup(spec, g, k))
            || (spec.brokers.value.pdbEnabled && k == PdbKey(spec))
            || k == Key(ConfigMap, spec.name) || k == Key(ConfigMap, spec.name + "-nodeport")
  {
    WantedParts(spec);
    AllGroupKeysExact(spec, spec.brokers.value.groups, k);
    forall g
      ensures k in GroupKeys(spec, g) <==> OfGroup(spec, g, k)
    {
      GroupKeysIff(spec, g, k);
    }
    assert k in AllGroupKeys(spec, spec.brokers.value.groups) <==> k in KeySet(AllGroupKeys(spec, spec.brokers.value.groups));
  }

  lemma GroupKeysIff(spec: Spec, g: string, k: Key)
    ensures k in GroupKeys(spec, g) <==> OfGroup(spec, g, k)
  {
    var keys := GroupKeys(spec, g);
    assert keys[0] in keys && keys[1] in keys && keys[2] in keys && keys[3] in keys;
    var name := spec.name + "-broker-" + g;
    assert keys[0] == Key(Listener, name + "-bootstrap") && keys[1] == Key(Service, name);
    assert keys[2] == Key(ConfigMap, name) && keys[3] == Key(StatefulSet, name);
  }

  // ---- What follows ----

  lemma WritesKeepTheCluster(objects: Objects, spec: Spec, env: Environment)
    requires CheckError(spec, env).None?
    ensures Pass(objects, spec, env).error != Some(InvalidKafkaCluster)
  {
    PassWrites(objects, spec, env);
  }

  lemma FailedCheckEnds(objects: Objects, spec: Spec, env: Environment)
    requires CheckError(spec, env).Some?
    ensures Pass(objects, spec, env).error == CheckError(spec, env)
  {
  }

  // A pass is not made again exactly when it succeeded, or when the cluster object could not
  // be read. Every other pass is made again after five seconds.
  lemma RetriedUnlessDone(objects: Objects, spec: Spec, env: Environment)
    ensures ActionAfter(Pass(objects, spec, env)) == AwaitChange <==>
            Pass(objects, spec, env).error.None? || env.fails(Check(InvalidKafkaCluster))
    ensures !(Pass(objects, spec, env).error.None? || env.fails(Check(InvalidKafkaCluster))) ==>
              ActionAfter(Pass(objects, spec, env)) == Requeue(5)
  {
    if CheckError(spec, env).None? {
      WritesKeepTheCluster(objects, spec, env);
    } else {
      FailedCheckEnds(objects, spec, env);
    }
  }

  // ---- What is published ----

  // The port of a Listener's status that discovery reads.
  ghost function PublishedPort(s: KafkaTlsSecurity): string {
    match ModeOf(s)
    case Tickets => "bootstrap"
    case Open => "kafka"
    case _ => "kafka-tls"
  }

  // The hosts of these addresses, each with that port.
  ghost predicate HostsOf(hosts: Hosts, addresses: seq<Ingress>, portName: string) {
    && |hosts| == |addresses|
    && forall i | 0 <= i < |addresses| ::
         portName in addresses[i].ports && hosts[i] == (addresses[i].address, addresses[i].ports[portName])
  }

  lemma FoundHostsAre(objects: Objects, spec: Spec)
    requires spec.brokers.Some? && spec.security.Accepted() && FoundHosts(objects, spec).Ok?
    ensures HostsOf(FoundHosts(objects, spec).value, Addresses(ListenerStatuses(objects, spec, spec.brokers.value.groups)),
                    PublishedPort(spec.security))
  {
    PortsByMode(spec.security);
    CollectExact(Addresses(ListenerStatuses(objects, spec, spec.brokers.value.groups)), spec.security.DiscoveryPortName());
  }

  // A successful pass publishes, in both ConfigMaps, every address of the bootstrap Listeners
  // with the port of the bootstrap listener under Kerberos, and that of the client listener
  // otherwise.
  lemma PublishesClientPorts(objects: Objects, spec: Spec, env: Environment) returns (hosts: Hosts)
    requires Pass(objects, spec, env).error.None?
    ensures spec.brokers.Some?
    ensures HostsOf(hosts, Addresses(ListenerStatuses(objects, spec, spec.brokers.value.groups)), PublishedPort(spec.security))
    ensures forall k | IsDiscoveryKey(spec, k) ::
              && k in Pass(objects, spec, env).objects
              && Pass(objects, spec, env).objects[k].manifest.servers == Some(BootstrapServers(hosts))
  {
    PassFound(objects, spec, env);
    PassDeletes(objects, spec, env);
    CheckedIsAccepted(spec, env);
    hosts := FoundHosts(objects, spec).value;
    FoundHostsAre(objects, spec);
    PassSettles(objects, spec, env);
    DiscoveryIsWanted(spec);
    SettledPublishes(objects, spec, DiscoveryKey(spec));
    SettledPublishes(objects, spec, NodePortDiscoveryKey(spec));
  }
}
