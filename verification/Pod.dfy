/**
 Volumes and mounts of a broker pod, the kcat probe and Kerberos (rust/crd/src/security.rs,
 rust/operator-binary/src/kerberos.rs, kafka_controller.rs), against the paths that
 configuration and commands name.
 */
module Pod {
  import opened Common
  import opened Text
  import opened Security
  import opened Listeners
  import opened BrokerConfig

  datatype Volume =
    | TlsKcat
    | TlsKafkaServer
    | TlsKafkaInternal
    | KerberosVolume
    | ListenerBroker
    | ListenerBootstrap
    | LogDirs
    | ConfigVolume
    | LogConfig
    | Log

  datatype SecretFormat = TlsPem | TlsPkcs12 | Keytab

  datatype VolumeSource =
    | SecretOperator(secretClass: string, format: SecretFormat, listenerScopes: seq<Volume>)
    | ConfigMapSource
    | ListenerClassSource
    | EmptyDir

  // A file that a setting or a command names.
  datatype FilePath = In(directory: Directory, file: string)

  datatype PodError = AddVolume | AddVolumeMount

  // ---- The builders ----

  type Mounts = map<Directory, Volume>

  type Volumes = map<Volume, VolumeSource>

  // The files that each environment variable names.
  type Env = map<string, set<FilePath>>

  class ContainerBuilder {
    var mounts: Mounts
    var env: Env

    constructor ()
      ensures mounts == map[] && env == map[]
    {
      mounts, env := map[], map[];
    }

    // A directory is mounted from one volume.
    method AddVolumeMount(volume: Volume, directory: Directory) returns (ok: bool)
      modifies this`mounts
      ensures ok <==> (directory in old(mounts) ==> old(mounts)[directory] == volume)
      ensures mounts == if ok then old(mounts)[directory := volume] else old(mounts)
    {
      ok := directory in mounts ==> mounts[directory] == volume;
      if ok { mounts := mounts[directory := volume]; }
    }

    method AddEnvVar(name: string, value: set<FilePath>)
      modifies this`env
      ensures env == old(env)[name := value]
    {
      env := env[name := value];
    }
  }

  class PodBuilder {
    var volumes: Volumes

    constructor ()
      ensures volumes == map[]
    {
      volumes := map[];
    }

    // A volume has one source.
    method AddVolume(volume: Volume, source: VolumeSource) returns (ok: bool)
      modifies this
      ensures ok <==> (volume in old(volumes) ==> old(volumes)[volume] == source)
      ensures volumes == if ok then old(volumes)[volume := source] else old(volumes)
    {
      ok := volume in volumes ==> volumes[volume] == source;
      if ok { volumes := volumes[volume := source]; }
    }
  }

  // ---- TLS ----

  function KcatTlsVolume(secretClass: string): VolumeSource {
    SecretOperator(secretClass, TlsPem, [])
  }

  function TlsKeystoreVolume(secretClass: string): VolumeSource {
    SecretOperator(secretClass, TlsPkcs12, [ListenerBroker, ListenerBootstrap])
  }

  function WithKcatTls(s: KafkaTlsSecurity, mounts: Mounts): Mounts {
    if s.TlsSecretClass().Some? then mounts[TlsKcatDir := TlsKcat] else mounts
  }

  function WithKafkaTls(s: KafkaTlsSecurity, mounts: Mounts): Mounts {
    var server := if s.TlsSecretClass().Some? then mounts[TlsKafkaServerDir := TlsKafkaServer] else mounts;
    if s.TlsInternalSecretClass().Some? then server[TlsKafkaInternalDir := TlsKafkaInternal] else server
  }

  function WithTlsVolumes(s: KafkaTlsSecurity, volumes: Volumes): Volumes {
    var server :=
      match s.TlsSecretClass()
      case Some(c) => volumes[TlsKcat := KcatTlsVolume(c)][TlsKafkaServer := TlsKeystoreVolume(c)]
      case None => volumes;
    match s.TlsInternalSecretClass()
    case Some(c) => server[TlsKafkaInternal := TlsKeystoreVolume(c)]
    case None => server
  }

  // `add_volume_and_volume_mounts`
  method AddVolumeAndVolumeMounts(
      s: KafkaTlsSecurity, pod: PodBuilder, kcatProber: ContainerBuilder, kafka: ContainerBuilder)
    returns (r: Result<(), PodError>)
    requires kcatProber != kafka
    modifies pod, kcatProber`mounts, kafka`mounts
    ensures r.Ok? ==> pod.volumes == WithTlsVolumes(s, old(pod.volumes))
    ensures r.Ok? ==> kcatProber.mounts == WithKcatTls(s, old(kcatProber.mounts))
    ensures r.Ok? ==> kafka.mounts == WithKafkaTls(s, old(kafka.mounts))
    ensures old(pod.volumes) == map[] && old(kcatProber.mounts) == map[] && old(kafka.mounts) == map[] ==> r.Ok?
  {
    var ok: bool;
    match s.TlsSecretClass() {
      case Some(secretClass) =>
        ok := pod.AddVolume(TlsKcat, KcatTlsVolume(secretClass));
        if !ok { return Err(AddVolume); }
        ok := kcatProber.AddVolumeMount(TlsKcat, TlsKcatDir);
        if !ok { return Err(PodError.AddVolumeMount); }
        ok := pod.AddVolume(TlsKafkaServer, TlsKeystoreVolume(secretClass));
        if !ok { return Err(AddVolume); }
        ok := kafka.AddVolumeMount(TlsKafkaServer, TlsKafkaServerDir);
        if !ok { return Err(PodError.AddVolumeMount); }
      case None =>
    }
    match s.TlsInternalSecretClass() {
      case Some(secretClass) =>
        ok := pod.AddVolume(TlsKafkaInternal, TlsKeystoreVolume(secretClass));
        if !ok { return Err(AddVolume); }
        ok := kafka.AddVolumeMount(TlsKafkaInternal, TlsKafkaInternalDir);
        if !ok { return Err(PodError.AddVolumeMount); }
      case None =>
    }
    r := Ok(());
  }

  // ---- Kerberos ----

  const KRB5_CONF := In(KerberosDir, "krb5.conf")
  const KEYTAB := In(KerberosDir, "keytab")

  function WithKerberos(s: KafkaTlsSecurity, mounts: Mounts): Mounts {
    if s.HasKerberosEnabled() then mounts[KerberosDir := KerberosVolume] else mounts
  }

  function KerberosSource(secretClass: string): VolumeSource {
    SecretOperator(secretClass, Keytab, [ListenerBroker, ListenerBootstrap])
  }

  function WithKerberosVolume(s: KafkaTlsSecurity, volumes: Volumes): Volumes {
    match s.KerberosSecretClass()
    case Some(c) => volumes[KerberosVolume := KerberosSource(c)]
    case None => volumes
  }

  function WithKerberosEnv(s: KafkaTlsSecurity, env: Env): Env {
    if s.HasKerberosEnabled() then env["KRB5_CONFIG" := {KRB5_CONF}]["KAFKA_OPTS" := {KRB5_CONF}] else env
  }

  // `add_kerberos_pod_config`
  method AddKerberosPodConfig(
      s: KafkaTlsSecurity, kcatProber: ContainerBuilder, kafka: ContainerBuilder, pod: PodBuilder)
    returns (r: Result<(), PodError>)
    requires kcatProber != kafka
    modifies pod, kcatProber, kafka
    ensures r.Ok? ==> pod.volumes == WithKerberosVolume(s, old(pod.volumes))
    ensures r.Ok? ==> kcatProber.mounts == WithKerberos(s, old(kcatProber.mounts))
    ensures r.Ok? ==> kafka.mounts == WithKerberos(s, old(kafka.mounts))
    ensures r.Ok? ==> kcatProber.env == WithKerberosEnv(s, old(kcatProber.env))
    ensures r.Ok? ==> kafka.env == WithKerberosEnv(s, old(kafka.env))
    ensures (KerberosVolume !in old(pod.volumes) && KerberosDir !in old(kcatProber.mounts)
             && KerberosDir !in old(kafka.mounts)) ==> r.Ok?
  {
    match s.KerberosSecretClass() {
      case Some(secretClass) =>
        var ok := pod.AddVolume(KerberosVolume, KerberosSource(secretClass));
        if !ok { return Err(AddVolume); }
        var containers := [kafka, kcatProber];
        for i := 0 to |containers|
          invariant pod.volumes == WithKerberosVolume(s, old(pod.volumes))
          invariant kafka.mounts == if i > 0 then WithKerberos(s, old(kafka.mounts)) else old(kafka.mounts)
          invariant kafka.env == if i > 0 then WithKerberosEnv(s, old(kafka.env)) else old(kafka.env)
          invariant kcatProber.mounts == if i > 1 then WithKerberos(s, old(kcatProber.mounts)) else old(kcatProber.mounts)
          invariant kcatProber.env == if i > 1 then WithKerberosEnv(s, old(kcatProber.env)) else old(kcatProber.env)
        {
          r := MountKerberos(containers[i]);
          if r.Err? { return; }
        }
      case None =>
    }
    r := Ok(());
  }

  // What the loop does to each of the two containers.
  method MountKerberos(cb: ContainerBuilder) returns (r: Result<(), PodError>)
    modifies cb
    ensures r.Ok? <==> (KerberosDir in old(cb.mounts) ==> old(cb.mounts)[KerberosDir] == KerberosVolume)
    ensures r.Ok? ==> cb.mounts == old(cb.mounts)[KerberosDir := KerberosVolume]
    ensures r.Ok? ==> cb.env == old(cb.env)["KRB5_CONFIG" := {KRB5_CONF}]["KAFKA_OPTS" := {KRB5_CONF}]
  {
    var ok := cb.AddVolumeMount(KerberosVolume, KerberosDir);
    if !ok { return Err(PodError.AddVolumeMount); }
    cb.AddEnvVar("KRB5_CONFIG", {KRB5_CONF});
    cb.AddEnvVar("KAFKA_OPTS", {KRB5_CONF});
    r := Ok(());
  }

  // ---- The pod of a role group ----

  function WithFixedMounts(mounts: Mounts): Mounts {
    mounts[DataDir := LogDirs][ConfigDir := ConfigVolume][ListenerBootstrapDir := ListenerBootstrap]
          [ListenerBrokerDir := ListenerBroker][LogConfigDir := LogConfig][LogDir := Log]
  }

  function WithFixedVolumes(volumes: Volumes): Volumes {
    volumes[LogConfig := ConfigMapSource][ConfigVolume := ConfigMapSource]
           [ListenerBroker := ListenerClassSource][Log := EmptyDir]
  }

  // `EXTRA_ARGS`: the JVM security settings, and the metrics agent with its configuration.
  const JVM_FILES := {In(ConfigDir, "security.properties"),
                      In(JmxDir, "jmx_prometheus_javaagent.jar"), In(JmxDir, "broker.yaml")}

  function WithFixedEnv(env: Env): Env {
    env["EXTRA_ARGS" := JVM_FILES]["KAFKA_LOG4J_OPTS" := {In(LogConfigDir, "log4j.properties")}]
       ["CONTAINERDEBUG_LOG_DIRECTORY" := {In(LogDir, "containerdebug")}]
  }

  // Claimed by the StatefulSet for each pod, not listed among the pod's volumes.
  const CLAIMED: set<Volume> := {LogDirs, ListenerBootstrap}

  function KafkaMounts(s: KafkaTlsSecurity): Mounts {
    WithFixedMounts(WithKerberos(s, WithKafkaTls(s, map[])))
  }

  function KcatMounts(s: KafkaTlsSecurity): Mounts {
    WithKerberos(s, WithKcatTls(s, map[]))
  }

  function KafkaEnv(s: KafkaTlsSecurity): Env {
    WithFixedEnv(WithKerberosEnv(s, map[]))
  }

  function KcatEnv(s: KafkaTlsSecurity): Env {
    WithKerberosEnv(s, map[])
  }

  function PodVolumes(s: KafkaTlsSecurity): Volumes {
    WithFixedVolumes(WithKerberosVolume(s, WithTlsVolumes(s, map[])))
  }

  // The mounts, volumes and variables `build_broker_rolegroup_statefulset` adds, in its order. None of
  // the additions can fail.
  method BuildPod(s: KafkaTlsSecurity)
    returns (pod: PodBuilder, kcatProber: ContainerBuilder, kafka: ContainerBuilder, r: Result<(), PodError>)
    ensures r.Ok?
    ensures pod.volumes == PodVolumes(s)
    ensures kafka.mounts == KafkaMounts(s) && kcatProber.mounts == KcatMounts(s)
    ensures kafka.env == KafkaEnv(s) && kcatProber.env == KcatEnv(s)
  {
    kcatProber := new ContainerBuilder();
    kafka := new ContainerBuilder();
    pod := new PodBuilder();
    r := AddVolumeAndVolumeMounts(s, pod, kcatProber, kafka);
    assert r.Ok?;
    if s.HasKerberosEnabled() {
      r := AddKerberosPodConfig(s, kcatProber, kafka, pod);
      assert r.Ok?;
    }
    AddFixedEnv(kafka);
    r := AddFixedMounts(kafka);
    assert r.Ok?;
    r := AddFixedVolumes(pod);
  }

  method AddFixedEnv(kafka: ContainerBuilder)
    modifies kafka`env
    ensures kafka.env == WithFixedEnv(old(kafka.env))
  {
    kafka.AddEnvVar("EXTRA_ARGS", JVM_FILES);
    kafka.AddEnvVar("KAFKA_LOG4J_OPTS", {In(LogConfigDir, "log4j.properties")});
    kafka.AddEnvVar("CONTAINERDEBUG_LOG_DIRECTORY", {In(LogDir, "containerdebug")});
  }

  method AddFixedMounts(kafka: ContainerBuilder) returns (r: Result<(), PodError>)
    modifies kafka`mounts
    ensures r.Ok? ==> kafka.mounts == WithFixedMounts(old(kafka.mounts))
    ensures (forall d | d in old(kafka.mounts) :: d in {TlsKafkaServerDir, TlsKafkaInternalDir, KerberosDir}) ==> r.Ok?
  {
    var ok := kafka.AddVolumeMount(LogDirs, DataDir);
    if !ok { return Err(PodError.AddVolumeMount); }
    ok := kafka.AddVolumeMount(ConfigVolume, ConfigDir);
    if !ok { return Err(PodError.AddVolumeMount); }
    ok := kafka.AddVolumeMount(ListenerBootstrap, ListenerBootstrapDir);
    if !ok { return Err(PodError.AddVolumeMount); }
    ok := kafka.AddVolumeMount(ListenerBroker, ListenerBrokerDir);
    if !ok { return Err(PodError.AddVolumeMount); }
    ok := kafka.AddVolumeMount(LogConfig, LogConfigDir);
    if !ok { return Err(PodError.AddVolumeMount); }
    ok := kafka.AddVolumeMount(Log, LogDir);
    if !ok { return Err(PodError.AddVolumeMount); }
    r := Ok(());
  }

  method AddFixedVolumes(pod: PodBuilder) returns (r: Result<(), PodError>)
    modifies pod
    ensures r.Ok? ==> pod.volumes == WithFixedVolumes(old(pod.volumes))
    ensures (forall v | v in old(pod.volumes) :: v in {TlsKcat, TlsKafkaServer, TlsKafkaInternal, KerberosVolume}) ==> r.Ok?
  {
    var ok := pod.AddVolume(LogConfig, ConfigMapSource);
    if !ok { return Err(AddVolume); }
    ok := pod.AddVolume(ConfigVolume, ConfigMapSource);
    if !ok { return Err(AddVolume); }
    ok := pod.AddVolume(ListenerBroker, ListenerClassSource);
    if !ok { return Err(AddVolume); }
    ok := pod.AddVolume(Log, EmptyDir);
    if !ok { return Err(AddVolume); }
    r := Ok(());
  }

  // ---- The kcat probe ----

  // An argument of the probe. `Reads` and `FileProperty` are the ones that name a file.
  datatype Arg =
    | Word(text: string)
    | Broker(host: string, port: Port)
    | Property(key: string, value: string)
    | FileProperty(key: string, path: FilePath)
    | Reads(path: FilePath)

  function PathText(p: FilePath): string {
    DirectoryPath(p.directory) + "/" + p.file
  }

  const EXPORT_REALM := "export KERBEROS_REALM="
  const GREP_REALM := "$(grep -oP 'default_realm = \\K.*' "

  function ArgText(a: Arg): string {
    match a
    case Word(text) => text
    case Broker(host, port) => host + ":" + Decimal(port)
    case Property(key, value) => key + "=" + value
    case FileProperty(key, path) => key + "=" + PathText(path)
    case Reads(path) => EXPORT_REALM + GREP_REALM + PathText(path) + ");"
  }

  const PROTOCOL := "security.protocol"

  function KcatClientAuthSsl(): seq<Arg> {
    [Word("-X"), Property(PROTOCOL, ProtocolText(Ssl)),
     Word("-X"), FileProperty("ssl.key.location", In(TlsKcatDir, "tls.key")),
     Word("-X"), FileProperty("ssl.certificate.location", In(TlsKcatDir, "tls.crt")),
     Word("-X"), FileProperty("ssl.ca.location", In(TlsKcatDir, "ca.crt"))]
  }

  function KcatClientSsl(): seq<Arg> {
    [Word("-X"), Property(PROTOCOL, ProtocolText(Ssl)),
     Word("-X"), FileProperty("ssl.ca.location", In(TlsKcatDir, "ca.crt"))]
  }

  function KcatClientSaslSsl(podFqdn: string): seq<Arg> {
    [Word("-X"), Property(PROTOCOL, ProtocolText(SaslSsl)),
     Word("-X"), FileProperty("ssl.ca.location", In(TlsKcatDir, "ca.crt")),
     Word("-X"), FileProperty("sasl.kerberos.keytab", KEYTAB),
     Word("-X"), Property("sasl.mechanism", "GSSAPI"),
     Word("-X"), Property("sasl.kerberos.service.name", "kafka"),
     Word("-X"), Property("sasl.kerberos.principal", "kafka/" + podFqdn + "@$KERBEROS_REALM")]
  }

  // How the probe is started: under Kerberos through a shell, to substitute the realm.
  function KcatLaunch(s: KafkaTlsSecurity, podFqdn: string): seq<Arg> {
    if !s.HasTlsAuthentication() && s.HasKerberosEnabled() then
      [Word("/bin/bash"), Word("-x"), Word("-euo"), Word("pipefail"), Word("-c"), Reads(KRB5_CONF),
       Word("/stackable/kcat"), Word("-b"), Broker(podFqdn, s.ClientPort())]
    else
      [Word("/stackable/kcat"), Word("-b"), Broker("localhost", s.ClientPort())]
  }

  function KcatOptions(s: KafkaTlsSecurity, podFqdn: string): seq<Arg> {
    if s.HasTlsAuthentication() then KcatClientAuthSsl()
    else if s.HasKerberosEnabled() then KcatClientSaslSsl(podFqdn)
    else if s.serverSecretClass.Some? then KcatClientSsl()
    else []
  }

  function KcatArgs(s: KafkaTlsSecurity, podFqdn: string): seq<Arg> {
    KcatLaunch(s, podFqdn) + KcatOptions(s, podFqdn) + [Word("-L")]
  }

  // `kcat_prober_container_commands`
  method KcatProberContainerCommands(s: KafkaTlsSecurity, podFqdn: string) returns (args: seq<Arg>)
    ensures args == KcatArgs(s, podFqdn)
  {
    args := [];
    var port := s.ClientPort();
    if s.HasTlsAuthentication() {
      args := args + [Word("/stackable/kcat")];
      args := args + [Word("-b")];
      args := args + [Broker("localhost", port)];
      args := args + KcatClientAuthSsl();
    } else if s.HasKerberosEnabled() {
      args := args + [Word("/bin/bash"), Word("-x"), Word("-euo"), Word("pipefail"), Word("-c")];
      args := args + [Reads(KRB5_CONF)];
      args := args + [Word("/stackable/kcat")];
      args := args + [Word("-b")];
      args := args + [Broker(podFqdn, port)];
      args := args + KcatClientSaslSsl(podFqdn);
    } else if s.serverSecretClass.Some? {
      args := args + [Word("/stackable/kcat")];
      args := args + [Word("-b")];
      args := args + [Broker("localhost", port)];
      args := args + KcatClientSsl();
    } else {
      args := args + [Word("/stackable/kcat")];
      args := args + [Word("-b")];
      args := args + [Broker("localhost", port)];
    }
    args := args + [Word("-L")];
  }

  predicate NamesFile(a: Arg) {
    a.FileProperty? || a.Reads?
  }

  function FilesIn(args: seq<Arg>): set<FilePath> {
    set a | a in args && NamesFile(a) :: a.path
  }
}
