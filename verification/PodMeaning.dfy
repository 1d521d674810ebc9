/**
 What a broker pod shows in each directory, the words its probe is given, and the names it is
 reached under.
 */
module PodMeaning {
  import opened Common
  import opened Text
  import opened Pods
  import opened Security
  import opened Listeners
  import opened BrokerConfig
  import opened Pod
  import opened BrokerMeaning

  // ---- Secret classes ----

  // The first class that asks for certificates says which class signs them, if it says so.
  ghost predicate SignedBy(s: KafkaTlsSecurity, secretClass: string) {
    exists i: nat :: FirstAt(s.classes, i, IsTlsClass) && s.classes[i].provider == Tls(Some(secretClass))
  }

  lemma FirstIsOne(classes: seq<AuthenticationClass>, i: nat, j: nat, has: AuthenticationClass -> bool)
    requires FirstAt(classes, i, has) && FirstAt(classes, j, has)
    ensures i == j
  {
  }

  // The class of clients' certificates takes precedence over the server's.
  lemma TlsSecretClassIff(s: KafkaTlsSecurity, c: string)
    ensures s.TlsSecretClass() == Some(c) <==>
            SignedBy(s, c) || ((forall c' :: !SignedBy(s, c')) && s.serverSecretClass == Some(c))
  {
    FirstExact(s.classes);
    if FirstTls(s.classes).Some? {
      var i: nat :| FirstAt(s.classes, i, IsTlsClass) && FirstTls(s.classes).value == s.classes[i];
      forall c'
        ensures SignedBy(s, c') <==> s.classes[i].provider == Tls(Some(c'))
      {
        if j: nat :| FirstAt(s.classes, j, IsTlsClass) && s.classes[j].provider == Tls(Some(c')) {
          FirstIsOne(s.classes, i, j, IsTlsClass);
        }
      }
    } else {
      assert forall c | c in s.classes :: !IsTlsClass(c);
      assert forall i | 0 <= i < |s.classes| :: s.classes[i] in s.classes;
    }
  }

  // ---- What a directory shows ----

  // The source of the volume that a container has mounted in a directory.
  function Behind(volumes: Volumes, mounts: Mounts, d: Directory): Option<VolumeSource> {
    if d in mounts && mounts[d] in volumes then Some(volumes[mounts[d]]) else None
  }

  function Pem(secretClass: string): VolumeSource {
    SecretOperator(secretClass, TlsPem, [])
  }

  function Pkcs12(secretClass: string): VolumeSource {
    SecretOperator(secretClass, TlsPkcs12, [ListenerBroker, ListenerBootstrap])
  }

  function OptionMap(c: Option<string>, f: string -> VolumeSource): Option<VolumeSource> {
    match c
    case Some(v) => Some(f(v))
    case None => None
  }

  lemma StoresBehind(s: KafkaTlsSecurity)
    ensures Behind(PodVolumes(s), KcatMounts(s), TlsKcatDir) == OptionMap(s.TlsSecretClass(), Pem)
    ensures Behind(PodVolumes(s), KafkaMounts(s), TlsKafkaServerDir) == OptionMap(s.TlsSecretClass(), Pkcs12)
    ensures Behind(PodVolumes(s), KafkaMounts(s), TlsKafkaInternalDir)
         == if s.internalSecretClass != "" then Some(Pkcs12(s.internalSecretClass)) else None
  {
  }

  // If clients' certificates are signed by a class, both the kcat directory and the server's
  // stores are of that class, whatever the server's is. If they are not, both are of the
  // server's, and absent without one. kcat gets PEM files, the broker PKCS#12 stores.
  lemma StoresByClass(s: KafkaTlsSecurity)
    ensures forall c | SignedBy(s, c) ::
              && Behind(PodVolumes(s), KcatMounts(s), TlsKcatDir) == Some(Pem(c))
              && Behind(PodVolumes(s), KafkaMounts(s), TlsKafkaServerDir) == Some(Pkcs12(c))
    ensures (forall c :: !SignedBy(s, c)) && s.serverSecretClass.Some? ==>
              && Behind(PodVolumes(s), KcatMounts(s), TlsKcatDir) == Some(Pem(s.serverSecretClass.value))
              && Behind(PodVolumes(s), KafkaMounts(s), TlsKafkaServerDir) == Some(Pkcs12(s.serverSecretClass.value))
    ensures (forall c :: !SignedBy(s, c)) && s.serverSecretClass.None? ==>
              TlsKcatDir !in KcatMounts(s) && TlsKafkaServerDir !in KafkaMounts(s)
              && TlsKcat !in PodVolumes(s) && TlsKafkaServer !in PodVolumes(s)
    ensures Behind(PodVolumes(s), KafkaMounts(s), TlsKafkaInternalDir)
         == if s.internalSecretClass != "" then Some(Pkcs12(s.internalSecretClass)) else None
  {
    StoresBehind(s);
    forall c | SignedBy(s, c)
      ensures s.TlsSecretClass() == Some(c)
    {
      TlsSecretClassIff(s, c);
    }
    if forall c :: !SignedBy(s, c) {
      if s.serverSecretClass.Some? {
        TlsSecretClassIff(s, s.serverSecretClass.value);
      } else {
        if s.TlsSecretClass().Some? { TlsSecretClassIff(s, s.TlsSecretClass().value); }
        NoStores(s);
      }
    }
  }

  lemma NoStores(s: KafkaTlsSecurity)
    requires s.TlsSecretClass().None?
    ensures TlsKcatDir !in KcatMounts(s) && TlsKafkaServerDir !in KafkaMounts(s)
    ensures TlsKcat !in PodVolumes(s) && TlsKafkaServer !in PodVolumes(s)
  {
  }

  // The keytab is of the first class that asks for Kerberos, in both containers.
  lemma KeytabByClass(s: KafkaTlsSecurity, i: nat)
    requires FirstAt(s.classes, i, IsKerberosClass)
    ensures var keytab := SecretOperator(s.classes[i].provider.kerberosSecretClass, Keytab, [ListenerBroker, ListenerBootstrap]);
            && Behind(PodVolumes(s), KafkaMounts(s), KerberosDir) == Some(keytab)
            && Behind(PodVolumes(s), KcatMounts(s), KerberosDir) == Some(keytab)
  {
    FirstExact(s.classes);
    assert s.classes[i] in s.classes && IsKerberosClass(s.classes[i]);
    var j: nat :| FirstAt(s.classes, j, IsKerberosClass) && FirstKerberos(s.classes).value == s.classes[j];
    FirstIsOne(s.classes, i, j, IsKerberosClass);
    KeytabBehind(s);
  }

  lemma KeytabBehind(s: KafkaTlsSecurity)
    requires s.KerberosSecretClass().Some?
    ensures Behind(PodVolumes(s), KafkaMounts(s), KerberosDir) == Some(KerberosSource(s.KerberosSecretClass().value))
    ensures Behind(PodVolumes(s), KcatMounts(s), KerberosDir) == Some(KerberosSource(s.KerberosSecretClass().value))
  {
  }

  // The other directories of the broker.
  lemma FixedDirectories(s: KafkaTlsSecurity)
    ensures KafkaMounts(s)[DataDir] == LogDirs && KafkaMounts(s)[ConfigDir] == ConfigVolume
    ensures KafkaMounts(s)[LogConfigDir] == LogConfig && KafkaMounts(s)[LogDir] == Log
    ensures KafkaMounts(s)[ListenerBrokerDir] == ListenerBroker && KafkaMounts(s)[ListenerBootstrapDir] == ListenerBootstrap
    ensures PodVolumes(s)[ListenerBroker] == ListenerClassSource && PodVolumes(s)[Log] == EmptyDir
    ensures PodVolumes(s)[ConfigVolume] == ConfigMapSource && PodVolumes(s)[LogConfig] == ConfigMapSource
  {
  }

  lemma DirectoryTexts()
    ensures DirectoryPath(TlsKcatDir) == "/stackable/tls-kcat"
    ensures DirectoryPath(TlsKafkaServerDir) == "/stackable/tls-kafka-server"
    ensures DirectoryPath(TlsKafkaInternalDir) == "/stackable/tls-kafka-internal"
    ensures DirectoryPath(KerberosDir) == "/stackable/kerberos"
    ensures DirectoryPath(ListenerBrokerDir) == "/stackable/listener-broker"
    ensures DirectoryPath(ListenerBootstrapDir) == "/stackable/listener-bootstrap"
    ensures DirectoryPath(DataDir) == "/stackable/data" && DirectoryPath(ConfigDir) == "/stackable/config"
    ensures DirectoryPath(LogConfigDir) == "/stackable/log_config" && DirectoryPath(LogDir) == "/stackable/log"
    ensures DirectoryPath(JmxDir) == "/stackable/jmx"
  {
  }

  // ---- The environment ----

  // Kerberos is configured in both containers by the same file.
  lemma KerberosEnvironment(s: KafkaTlsSecurity)
    ensures "KRB5_CONFIG" in KcatEnv(s) <==> AsksForKerberos(s)
    ensures AsksForKerberos(s) ==>
              && KcatEnv(s)["KRB5_CONFIG"] == KcatEnv(s)["KAFKA_OPTS"] == {In(KerberosDir, "krb5.conf")}
              && "KRB5_CONFIG" in KafkaEnv(s) && "KAFKA_OPTS" in KafkaEnv(s)
              && KafkaEnv(s)["KRB5_CONFIG"] == KafkaEnv(s)["KAFKA_OPTS"] == {In(KerberosDir, "krb5.conf")}
  {
    ModeIff(s);
    VariableNames();
  }

  // The files that the other variables of the broker name.
  lemma BrokerEnvironment(s: KafkaTlsSecurity)
    ensures "EXTRA_ARGS" in KafkaEnv(s) && "KAFKA_LOG4J_OPTS" in KafkaEnv(s) && "CONTAINERDEBUG_LOG_DIRECTORY" in KafkaEnv(s)
    ensures KafkaEnv(s)["EXTRA_ARGS"]
         == {In(ConfigDir, "security.properties"), In(JmxDir, "jmx_prometheus_javaagent.jar"), In(JmxDir, "broker.yaml")}
    ensures KafkaEnv(s)["KAFKA_LOG4J_OPTS"] == {In(LogConfigDir, "log4j.properties")}
    ensures KafkaEnv(s)["CONTAINERDEBUG_LOG_DIRECTORY"] == {In(LogDir, "containerdebug")}
  {
    assert "EXTRA_ARGS"[0] == 'E' && "KAFKA_LOG4J_OPTS"[0] == 'K' && "CONTAINERDEBUG_LOG_DIRECTORY"[0] == 'C';
  }

  lemma VariableNames()
    ensures "KRB5_CONFIG" != "EXTRA_ARGS" && "KRB5_CONFIG" != "KAFKA_LOG4J_OPTS" && "KRB5_CONFIG" != "CONTAINERDEBUG_LOG_DIRECTORY"
    ensures "KAFKA_OPTS" != "EXTRA_ARGS" && "KAFKA_OPTS" != "KAFKA_LOG4J_OPTS" && "KAFKA_OPTS" != "CONTAINERDEBUG_LOG_DIRECTORY"
    ensures "KRB5_CONFIG" != "KAFKA_OPTS"
  {
    assert "KRB5_CONFIG"[1] == 'R' && "KAFKA_OPTS"[6] == 'O' && "KAFKA_LOG4J_OPTS"[6] == 'L';
    assert "KAFKA_OPTS"[0] == 'K' && "EXTRA_ARGS"[0] == 'E' && "CONTAINERDEBUG_LOG_DIRECTORY"[0] == 'C';
    assert "KAFKA_LOG4J_OPTS"[1] == 'A' && "KAFKA_OPTS"[1] == 'A';
  }

  // ---- The words of the probe ----

  const REALM_SCRIPT := "export KERBEROS_REALM=" + ("$(grep -oP 'default_realm = \\K.*' " + "/stackable/kerberos/krb5.conf") + ");"

  function LaunchByMode(m: Mode, podFqdn: string): seq<string> {
    match m
    case Tickets =>
      ["/bin/bash", "-x", "-euo", "pipefail", "-c", REALM_SCRIPT, "/stackable/kcat", "-b", podFqdn + ":" + "9093"]
    case Open => ["/stackable/kcat", "-b", "localhost" + ":" + "9092"]
    case _ => ["/stackable/kcat", "-b", "localhost" + ":" + "9093"]
  }

  lemma RealmScript()
    ensures ArgText(Reads(KRB5_CONF)) == REALM_SCRIPT
  {
    assert PathText(KRB5_CONF) == "/stackable/kerberos/krb5.conf";
    Regroup("export KERBEROS_REALM=", "$(grep -oP 'default_realm = \\K.*' ", "/stackable/kerberos/krb5.conf");
  }

  // How the probe is started, word by word; `-L` ends its options.
  lemma KcatLaunchTexts(s: KafkaTlsSecurity, podFqdn: string)
    requires s.Accepted()
    ensures |KcatLaunch(s, podFqdn)| == |LaunchByMode(ModeOf(s), podFqdn)|
    ensures forall i | 0 <= i < |KcatLaunch(s, podFqdn)| ::
              ArgText(KcatLaunch(s, podFqdn)[i]) == LaunchByMode(ModeOf(s), podFqdn)[i]
    ensures KcatArgs(s, podFqdn) == KcatLaunch(s, podFqdn) + KcatOptions(s, podFqdn) + [Word("-L")]
  {
    AcceptedMode(s);
    RealmScript();
    ListenerTextExact("", "");
    assert Decimal(s.ClientPort()) == if ModeOf(s) == Open then "9092" else "9093";
  }

  const KCAT_CA := "ssl.ca.location=" + "/stackable/tls-kcat" + "/ca.crt"
  const KCAT_KEY := "ssl.key.location=" + "/stackable/tls-kcat" + "/tls.key"
  const KCAT_CERTIFICATE := "ssl.certificate.location=" + "/stackable/tls-kcat" + "/tls.crt"

  function OptionsByMode(m: Mode, podFqdn: string): seq<string> {
    match m
    case Certificates => ["security.protocol=SSL", KCAT_KEY, KCAT_CERTIFICATE, KCAT_CA]
    case Tickets =>
      ["security.protocol=SASL_SSL", KCAT_CA,
       "sasl.kerberos.keytab=" + "/stackable/kerberos" + "/keytab",
       "sasl.mechanism=GSSAPI", "sasl.kerberos.service.name=kafka",
       "sasl.kerberos.principal=" + ("kafka/" + podFqdn + "@$KERBEROS_REALM")]
    case Encrypted => ["security.protocol=SSL", KCAT_CA]
    case Open => []
  }

  lemma Regrouped(key: string, directory: string, file: string)
    ensures key + "=" + (directory + "/" + file) == (key + "=") + directory + ("/" + file)
  {
  }

  lemma KcatFileTexts()
    ensures ArgText(FileProperty("ssl.ca.location", In(TlsKcatDir, "ca.crt"))) == KCAT_CA
    ensures ArgText(FileProperty("ssl.key.location", In(TlsKcatDir, "tls.key"))) == KCAT_KEY
    ensures ArgText(FileProperty("ssl.certificate.location", In(TlsKcatDir, "tls.crt"))) == KCAT_CERTIFICATE
  {
    DirectoryTexts();
    Regrouped("ssl.ca.location", "/stackable/tls-kcat", "ca.crt");
    Regrouped("ssl.key.location", "/stackable/tls-kcat", "tls.key");
    Regrouped("ssl.certificate.location", "/stackable/tls-kcat", "tls.crt");
    assert "ssl.ca.location" + "=" == "ssl.ca.location=" && "/" + "ca.crt" == "/ca.crt";
    assert "ssl.key.location" + "=" == "ssl.key.location=" && "/" + "tls.key" == "/tls.key";
    assert "ssl.certificate.location" + "=" == "ssl.certificate.location=" && "/" + "tls.crt" == "/tls.crt";
  }

  lemma KcatSaslTexts(podFqdn: string)
    ensures ArgText(FileProperty("sasl.kerberos.keytab", KEYTAB)) == "sasl.kerberos.keytab=" + "/stackable/kerberos" + "/keytab"
    ensures ArgText(Property("sasl.mechanism", "GSSAPI")) == "sasl.mechanism=GSSAPI"
    ensures ArgText(Property("sasl.kerberos.service.name", "kafka")) == "sasl.kerberos.service.name=kafka"
    ensures ArgText(Property("sasl.kerberos.principal", "kafka/" + podFqdn + "@$KERBEROS_REALM"))
         == "sasl.kerberos.principal=" + ("kafka/" + podFqdn + "@$KERBEROS_REALM")
  {
    DirectoryTexts();
    Regrouped("sasl.kerberos.keytab", "/stackable/kerberos", "keytab");
    assert "sasl.kerberos.keytab" + "=" == "sasl.kerberos.keytab=" && "/" + "keytab" == "/keytab";
    assert "sasl.mechanism" + "=" + "GSSAPI" == "sasl.mechanism=GSSAPI";
    assert "sasl.kerberos.service.name" + "=" + "kafka" == "sasl.kerberos.service.name=kafka";
    assert "sasl.kerberos.principal" + "=" == "sasl.kerberos.principal=";
  }

  lemma ProtocolOptionTexts()
    ensures ArgText(Property(PROTOCOL, ProtocolText(Ssl))) == "security.protocol=SSL"
    ensures ArgText(Property(PROTOCOL, ProtocolText(SaslSsl))) == "security.protocol=SASL_SSL"
  {
    assert PROTOCOL + "=" + "SSL" == "security.protocol=SSL";
    assert PROTOCOL + "=" + "SASL_SSL" == "security.protocol=SASL_SSL";
  }

  // That these words are the options, each behind its `-X`.
  ghost predicate Spell(words: seq<Arg>, options: seq<string>) {
    && |words| == 2 * |options|
    && forall i | 0 <= i < |options| :: ArgText(words[2 * i]) == "-X" && ArgText(words[2 * i + 1]) == options[i]
  }

  lemma SpellCertificates(podFqdn: string)
    ensures Spell(KcatClientAuthSsl(), OptionsByMode(Certificates, podFqdn))
  {
    KcatFileTexts();
    ProtocolOptionTexts();
    SpellFour(KcatClientAuthSsl(), OptionsByMode(Certificates, podFqdn));
  }

  lemma SpellFour(words: seq<Arg>, options: seq<string>)
    requires |words| == 8 && |options| == 4
    requires ArgText(words[0]) == ArgText(words[2]) == ArgText(words[4]) == ArgText(words[6]) == "-X"
    requires ArgText(words[1]) == options[0] && ArgText(words[3]) == options[1]
    requires ArgText(words[5]) == options[2] && ArgText(words[7]) == options[3]
    ensures Spell(words, options)
  {
  }

  lemma SpellTickets(podFqdn: string)
    ensures Spell(KcatClientSaslSsl(podFqdn), OptionsByMode(Tickets, podFqdn))
  {
    KcatFileTexts();
    KcatSaslTexts(podFqdn);
    ProtocolOptionTexts();
    SpellSix(KcatClientSaslSsl(podFqdn), OptionsByMode(Tickets, podFqdn));
  }

  lemma SpellSix(words: seq<Arg>, options: seq<string>)
    requires |words| == 12 && |options| == 6
    requires ArgText(words[0]) == ArgText(words[2]) == ArgText(words[4]) == "-X"
    requires ArgText(words[6]) == ArgText(words[8]) == ArgText(words[10]) == "-X"
    requires ArgText(words[1]) == options[0] && ArgText(words[3]) == options[1] && ArgText(words[5]) == options[2]
    requires ArgText(words[7]) == options[3] && ArgText(words[9]) == options[4] && ArgText(words[11]) == options[5]
    ensures Spell(words, options)
  {
  }

  lemma SpellEncrypted(podFqdn: string)
    ensures Spell(KcatClientSsl(), OptionsByMode(Encrypted, podFqdn))
  {
    KcatFileTexts();
    ProtocolOptionTexts();
  }

  // What kcat is told, option by option.
  lemma KcatOptionTexts(s: KafkaTlsSecurity, podFqdn: string)
    requires s.Accepted()
    ensures Spell(KcatOptions(s, podFqdn), OptionsByMode(ModeOf(s), podFqdn))
  {
    AcceptedMode(s);
    SpellCertificates(podFqdn);
    SpellTickets(podFqdn);
    SpellEncrypted(podFqdn);
  }

  // ---- The name of a pod ----

  // `$POD_NAME` in the advertised host stands for the name of the pod: with it put in, the host
  // is the pod's fully qualified name.
  lemma AdvertisedHostIsThePod(cluster: string, namespace: string, clusterDomain: string, index: (string, nat))
    ensures var host := PodFqdn(Cluster(Some(namespace), clusterDomain), ObjectName(cluster, index.0));
            host.Ok? && exists rest :: host.value == "$POD_NAME" + rest
                                       && PodRef(cluster, namespace, index).Fqdn(clusterDomain) == PodName(cluster, index) + rest
  {
    var rest := "." + ObjectName(cluster, index.0) + "." + namespace + ".svc." + clusterDomain;
    var host := PodFqdn(Cluster(Some(namespace), clusterDomain), ObjectName(cluster, index.0)).value;
    assert "$POD_NAME" + "." == "$POD_NAME.";
    assert host == "$POD_NAME" + rest;
    assert PodRef(cluster, namespace, index).Fqdn(clusterDomain) == PodName(cluster, index) + rest;
  }

  // Names as the tests of the operator have them.
  lemma NamesInTests()
    ensures ObjectName("simple-kafka", "default") == "simple-kafka-broker-default"
    ensures BootstrapServiceName("simple-kafka", "default") == "simple-kafka-broker-default-bootstrap"
    ensures PodName("simple-kafka", ("default", 0)) == "simple-kafka-broker-default-0"
    ensures PodFqdn(Cluster(Some("default"), "cluster.local"), "simple-kafka-broker-default")
         == Ok("$POD_NAME." + "simple-kafka-broker-default" + ".default.svc." + "cluster.local")
  {
    assert "simple-kafka" + "-broker-" + "default" == "simple-kafka-broker-default";
    assert "simple-kafka-broker-default" + "-bootstrap" == "simple-kafka-broker-default-bootstrap";
    assert Decimal(0) == "0" && "simple-kafka-broker-default" + "-" + "0" == "simple-kafka-broker-default-0";
    HostInTests("simple-kafka-broker-default");
  }

  lemma HostInTests(objectName: string)
    ensures PodFqdn(Cluster(Some("default"), "cluster.local"), objectName)
         == Ok("$POD_NAME." + objectName + ".default.svc." + "cluster.local")
  {
    var front := "$POD_NAME." + objectName;
    assert front + "." + "default" + ".svc." == front + ".default.svc.";
  }
}
