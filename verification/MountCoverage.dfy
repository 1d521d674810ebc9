/**
 The files that the configuration, the environment or a command of a container names lie in
 directories that are mounted there, from volumes the pod has, or that the image brings.
 */
module MountCoverage {
  import opened Common
  import opened Security
  import opened Listeners
  import opened BrokerConfig
  import opened Pod

  // ---- What the containers name ----

  function StoreFiles(config: Settings): set<FilePath> {
    set k | k in config && config[k].StoreFile? :: In(config[k].directory, config[k].file)
  }

  const ADDRESS_FILE := "default-address/address"
  const PORTS := "default-address/ports/"

  function PortFile(s: KafkaTlsSecurity): string {
    PORTS + s.ClientPortName()
  }

  // The files the start command names: configuration and logs, the file that stops Vector, the
  // broker's own Listener for advertised addresses, and under Kerberos the keytab, realm and
  // bootstrap Listener.
  function StartCommandFiles(s: KafkaTlsSecurity): set<FilePath> {
    {In(ConfigDir, "server.properties"), In(LogDir, "containerdebug-state.json"), In(LogDir, "_vector/shutdown"),
     In(ListenerBrokerDir, ADDRESS_FILE), In(ListenerBrokerDir, PortFile(s))}
    + if s.HasKerberosEnabled() then {KRB5_CONF, KEYTAB, In(ListenerBootstrapDir, ADDRESS_FILE)} else {}
  }

  function EnvFiles(env: Env): set<FilePath> {
    set name, f | name in env && f in env[name] :: f
  }

  function KafkaFiles(s: KafkaTlsSecurity): set<FilePath> {
    StoreFiles(SettingsOf(s)) + StartCommandFiles(s) + EnvFiles(KafkaEnv(s))
  }

  function KcatFiles(s: KafkaTlsSecurity, podFqdn: string): set<FilePath> {
    FilesIn(KcatArgs(s, podFqdn)) + EnvFiles(KcatEnv(s))
  }

  // Directories on which no container mounts a volume: the product image has to bring them.
  const IMAGE_DIRECTORIES: set<Directory> := {JmxDir}

  ghost predicate AllMounted(files: set<FilePath>, mounts: Mounts) {
    forall p | p in files && p.directory !in IMAGE_DIRECTORIES :: p.directory in mounts
  }

  // ---- The kafka container ----

  // The directories that the settings name.
  ghost predicate NamesStore(s: KafkaTlsSecurity, d: Directory) {
    || (d == TlsKafkaServerDir && (s.HasTlsAuthentication() || s.serverSecretClass.Some? || s.HasKerberosEnabled()))
    || (d == TlsKafkaInternalDir && s.internalSecretClass != "")
  }

  lemma StoreDirectories(s: KafkaTlsSecurity, p: FilePath)
    requires p in StoreFiles(SettingsOf(s))
    ensures NamesStore(s, p.directory)
  {
    var config := SettingsOf(s);
    var k :| k in config && config[k].StoreFile? && p == In(config[k].directory, config[k].file);
    assert IsSet(s, k) && config[k] == KeyValue(k);
  }

  lemma StoreOf(s: KafkaTlsSecurity, n: ListenerName)
    ensures HasStores(s, n) ==> In(StoreDirectory(n), KEYSTORE_FILE) in StoreFiles(SettingsOf(s))
  {
    var k := Of(n, KeystoreLocation);
    if HasStores(s, n) {
      assert IsSet(s, k) && k in SettingsOf(s);
      assert SettingsOf(s)[k] == KeyValue(k);
    }
  }

  lemma KerberosFiles(s: KafkaTlsSecurity)
    ensures EnvFiles(KcatEnv(s)) == if s.HasKerberosEnabled() then {KRB5_CONF} else {}
  {
    var env: Env := KcatEnv(s);
    if s.HasKerberosEnabled() {
      assert "KRB5_CONFIG" in env && env["KRB5_CONFIG"] == {KRB5_CONF};
    }
  }

  // What the environment of the broker names beside that.
  lemma KafkaEnvFiles(s: KafkaTlsSecurity, p: FilePath)
    requires p in EnvFiles(KafkaEnv(s))
    ensures p in JVM_FILES || p.directory in {LogConfigDir, LogDir} || (s.HasKerberosEnabled() && p == KRB5_CONF)
  {
    var name :| name in KafkaEnv(s) && p in KafkaEnv(s)[name];
    assert name in {"EXTRA_ARGS", "KAFKA_LOG4J_OPTS", "CONTAINERDEBUG_LOG_DIRECTORY"} || name in KcatEnv(s);
  }

  lemma KafkaMountsExact(s: KafkaTlsSecurity, d: Directory)
    ensures d in KafkaMounts(s) <==>
            match d
            case TlsKcatDir => false
            case TlsKafkaServerDir => s.TlsSecretClass().Some?
            case TlsKafkaInternalDir => s.TlsInternalSecretClass().Some?
            case KerberosDir => s.HasKerberosEnabled()
            case JmxDir => false
            case _ => true
  {
  }

  lemma KcatMountsExact(s: KafkaTlsSecurity, d: Directory)
    ensures d in KcatMounts(s) <==>
            (d == TlsKcatDir && s.TlsSecretClass().Some?) || (d == KerberosDir && s.HasKerberosEnabled())
  {
  }

  lemma KafkaFilesMountedIff(s: KafkaTlsSecurity)
    requires s.Accepted()
    ensures AllMounted(KafkaFiles(s), KafkaMounts(s)) <==> (s.HasTlsAuthentication() ==> s.TlsSecretClass().Some?)
  {
    AcceptedIsExclusive(s);
    KerberosFiles(s);
    ServerSecretIsTlsSecret(s);
    forall p | p in KafkaFiles(s)
      ensures p.directory in KafkaMounts(s) || p.directory in IMAGE_DIRECTORIES
              || (s.HasTlsAuthentication() && s.TlsSecretClass().None? && p.directory == TlsKafkaServerDir)
    {
      if p in StoreFiles(SettingsOf(s)) { StoreDirectories(s, p); }
      if p in EnvFiles(KafkaEnv(s)) { KafkaEnvFiles(s, p); }
      KafkaMountsExact(s, p.directory);
    }
    if s.HasTlsAuthentication() {
      StoreOf(s, ClientAuth);
      KafkaMountsExact(s, TlsKafkaServerDir);
      assert In(TlsKafkaServerDir, KEYSTORE_FILE) in KafkaFiles(s);
    }
  }

  lemma ServerSecretIsTlsSecret(s: KafkaTlsSecurity)
    ensures s.serverSecretClass.Some? ==> s.TlsSecretClass().Some?
  {
  }

  // ---- The kcat container ----

  lemma KcatNames(s: KafkaTlsSecurity, podFqdn: string)
    ensures forall p | p in FilesIn(KcatArgs(s, podFqdn)) ::
              && (p.directory == TlsKcatDir || (p.directory == KerberosDir && s.HasKerberosEnabled()))
              && (s.HasTlsAuthentication() || s.HasKerberosEnabled() || s.serverSecretClass.Some?)
  {
    FileArguments(podFqdn);
  }

  lemma KcatNamesCa(s: KafkaTlsSecurity, podFqdn: string)
    requires s.HasTlsAuthentication() || s.HasKerberosEnabled() || s.serverSecretClass.Some?
    ensures CaArgument().path in FilesIn(KcatArgs(s, podFqdn))
  {
    var options := KcatOptions(s, podFqdn);
    var i := if s.HasTlsAuthentication() then 7 else 3;
    assert options[i] == CaArgument() && CaArgument() in options;
    assert CaArgument() in KcatArgs(s, podFqdn);
  }

  function CaArgument(): Arg {
    FileProperty("ssl.ca.location", In(TlsKcatDir, "ca.crt"))
  }

  lemma FileArguments(podFqdn: string)
    ensures forall a | a in KcatClientAuthSsl() && NamesFile(a) :: a.path.directory == TlsKcatDir
    ensures forall a | a in KcatClientSsl() && NamesFile(a) :: a.path.directory == TlsKcatDir
    ensures forall a | a in KcatClientSaslSsl(podFqdn) && NamesFile(a) :: a.path.directory in {TlsKcatDir, KerberosDir}
  {
  }

  lemma KcatFilesMountedIff(s: KafkaTlsSecurity, podFqdn: string)
    requires s.Accepted()
    ensures AllMounted(KcatFiles(s, podFqdn), KcatMounts(s)) <==> (s.HasTlsAuthentication() ==> s.TlsSecretClass().Some?)
  {
    AcceptedIsExclusive(s);
    KerberosFiles(s);
    ServerSecretIsTlsSecret(s);
    KcatNames(s, podFqdn);
    if s.HasTlsAuthentication() { KcatNamesCa(s, podFqdn); }
    KcatMountsExact(s, TlsKcatDir);
    KcatMountsExact(s, KerberosDir);
  }

  // ---- Together ----

  // For accepted configurations every file that settings, commands or environment name, but
  // for those of the image, is mounted where it is used exactly when TLS authentication comes
  // with a secret class: its own, or the server's.
  lemma FilesMountedIff(s: KafkaTlsSecurity, podFqdn: string)
    requires s.Accepted()
    ensures (AllMounted(KafkaFiles(s), KafkaMounts(s)) && AllMounted(KcatFiles(s, podFqdn), KcatMounts(s)))
            <==> (s.HasTlsAuthentication() ==> s.TlsSecretClass().Some?)
  {
    KafkaFilesMountedIff(s);
    KcatFilesMountedIff(s, podFqdn);
  }

  // Every mounted volume is one of the pod's, or claimed for it.
  lemma MountsHaveVolumes(s: KafkaTlsSecurity)
    ensures forall d | d in KafkaMounts(s) :: KafkaMounts(s)[d] in PodVolumes(s) || KafkaMounts(s)[d] in CLAIMED
    ensures forall d | d in KcatMounts(s) :: KcatMounts(s)[d] in PodVolumes(s)
  {
    forall d | d in KafkaMounts(s)
      ensures KafkaMounts(s)[d] in PodVolumes(s) || KafkaMounts(s)[d] in CLAIMED
    {
      KafkaMountsExact(s, d);
      MountHasVolume(s, d);
    }
  }

  lemma MountHasVolume(s: KafkaTlsSecurity, d: Directory)
    requires d in KafkaMounts(s)
    ensures KafkaMounts(s)[d] in PodVolumes(s) || KafkaMounts(s)[d] in CLAIMED
  {
    match d {
      case TlsKcatDir =>
      case TlsKafkaServerDir =>
      case TlsKafkaInternalDir =>
      case KerberosDir =>
      case ListenerBrokerDir =>
      case ListenerBootstrapDir =>
      case DataDir =>
      case ConfigDir =>
      case LogConfigDir =>
      case LogDir =>
      case JmxDir =>
        KafkaMountsExact(s, d);
    }
  }

  // ---- What advertised listeners are printed from ----

  lemma AddressCommandReads(directory: string)
    ensures NodeAddressCmd(directory) == "$(cat " + (directory + "/" + ADDRESS_FILE) + ")"
  {
    var tail := "/default-address/address)";
    assert tail == "/" + ADDRESS_FILE + ")";
  }

  lemma PortCommandReads(directory: string, name: string)
    ensures NodePortCmd(directory, name) == "$(cat " + (directory + "/" + (PORTS + name)) + ")"
  {
    var middle := "/default-address/ports/";
    assert middle == "/" + PORTS;
  }

  // A client listener is advertised under the contents of two files that the start command
  // is counted to name, and their directory is mounted.
  lemma AdvertisedFilesMounted(config: KafkaListenerConfig, s: KafkaTlsSecurity, fqdn: string, i: nat)
    requires Describes(config, s, fqdn)
    requires i < |config.advertisedListeners| && config.advertisedListeners[i].name != Internal
    ensures var host, port := In(ListenerBrokerDir, ADDRESS_FILE), In(ListenerBrokerDir, PortFile(s));
            && host in KafkaFiles(s) && port in KafkaFiles(s) && ListenerBrokerDir in KafkaMounts(s)
            && config.advertisedListeners[i].host == "$(cat " + PathText(host) + ")"
            && config.advertisedListeners[i].port == Command("$(cat " + PathText(port) + ")")
  {
    AddressCommandReads(STACKABLE_LISTENER_BROKER_DIR);
    PortCommandReads(STACKABLE_LISTENER_BROKER_DIR, s.ClientPortName());
    KafkaMountsExact(s, ListenerBrokerDir);
    assert config.advertisedListeners[i] == AdvertisedListener(s, fqdn, ExpectedNames(s)[i]);
  }
}
