/**
 What a broker is configured to do, mode by mode and in the very texts and numbers that Kafka
 and Kubernetes get: ports, listeners, properties. Each mode is told from the authentication
 classes and secret classes alone.
 */
module BrokerMeaning {
  import opened Common
  import opened Text
  import opened Security
  import opened Listeners
  import opened BrokerConfig

  // ---- Modes ----

  ghost predicate AsksForCertificates(s: KafkaTlsSecurity) {
    exists c :: c in s.classes && c.provider.Tls?
  }

  ghost predicate AsksForKerberos(s: KafkaTlsSecurity) {
    exists c :: c in s.classes && c.provider.Kerberos?
  }

  // Clients log in with certificates or Kerberos tickets, or are only served by TLS, or not even that.
  datatype Mode = Certificates | Tickets | Encrypted | Open

  ghost function ModeOf(s: KafkaTlsSecurity): Mode {
    if AsksForCertificates(s) then Certificates
    else if AsksForKerberos(s) then Tickets
    else if s.serverSecretClass.Some? then Encrypted
    else Open
  }

  lemma ModeIff(s: KafkaTlsSecurity)
    ensures s.HasTlsAuthentication() <==> AsksForCertificates(s)
    ensures s.HasKerberosEnabled() <==> AsksForKerberos(s)
  {
    EnabledIffClass(s);
  }

  // What a pass accepts: at most one class, for certificates or Kerberos, and Kerberos only
  // with a secret class for the server.
  lemma AcceptedIff(s: KafkaTlsSecurity)
    ensures s.Accepted() <==>
            && |s.classes| <= 1
            && (forall c | c in s.classes :: c.provider.Tls? || c.provider.Kerberos?)
            && (AsksForKerberos(s) ==> s.serverSecretClass.Some?)
  {
    ModeIff(s);
    if s.classes != [] { assert s.classes[0] in s.classes; }
  }

  // In an accepted configuration Kerberos is all there is, and the server has TLS.
  lemma AcceptedMode(s: KafkaTlsSecurity)
    requires s.Accepted()
    ensures s.HasTlsAuthentication() <==> ModeOf(s) == Certificates
    ensures s.HasKerberosEnabled() <==> ModeOf(s) == Tickets
    ensures ModeOf(s) == Tickets ==> s.serverSecretClass.Some?
  {
    ModeIff(s);
    AcceptedIsExclusive(s);
  }

  // ---- Ports ----

  function ClientPorts(m: Mode): seq<NamedPort> {
    match m
    case Certificates => [NamedPort("metrics", 9606), NamedPort("kafka-tls", 9093)]
    case Tickets => [NamedPort("metrics", 9606), NamedPort("kafka-tls", 9093), NamedPort("bootstrap", 9095)]
    case Encrypted => [NamedPort("metrics", 9606), NamedPort("kafka-tls", 9093)]
    case Open => [NamedPort("metrics", 9606), NamedPort("kafka", 9092)]
  }

  // The exposed ports, and the name under which discovery reads the status of a Listener.
  lemma PortsByMode(s: KafkaTlsSecurity)
    requires s.Accepted()
    ensures ExposedPorts(s) == ClientPorts(ModeOf(s))
    ensures s.DiscoveryPortName()
         == match ModeOf(s) case Tickets => "bootstrap" case Open => "kafka" case _ => "kafka-tls"
  {
    AcceptedMode(s);
  }

  // ---- Listeners ----

  function BoundByMode(m: Mode, internalTls: bool): seq<KafkaListener> {
    var internal := KafkaListener(Internal, "0.0.0.0", Number(if internalTls then 19093 else 19092));
    match m
    case Certificates => [KafkaListener(ClientAuth, "0.0.0.0", Number(9093)), internal]
    case Tickets => [KafkaListener(Client, "0.0.0.0", Number(9093)), internal, KafkaListener(Bootstrap, "0.0.0.0", Number(9095))]
    case Encrypted => [KafkaListener(Client, "0.0.0.0", Number(9093)), internal]
    case Open => [KafkaListener(Client, "0.0.0.0", Number(9092)), internal]
  }

  const BROKER_HOST := "$(cat " + "/stackable/listener-broker" + "/default-address/address)"

  function BrokerPort(name: string): string {
    "$(cat " + "/stackable/listener-broker" + "/default-address/ports/" + name + ")"
  }

  function AdvertisedByMode(m: Mode, internalTls: bool, fqdn: string): seq<KafkaListener> {
    var internal := KafkaListener(Internal, fqdn, Number(if internalTls then 19093 else 19092));
    var secure := Command(BrokerPort("kafka-tls"));
    match m
    case Certificates => [KafkaListener(ClientAuth, BROKER_HOST, secure), internal]
    case Tickets => [KafkaListener(Client, BROKER_HOST, secure), internal, KafkaListener(Bootstrap, BROKER_HOST, secure)]
    case Encrypted => [KafkaListener(Client, BROKER_HOST, secure), internal]
    case Open => [KafkaListener(Client, BROKER_HOST, Command(BrokerPort("kafka"))), internal]
  }

  function ProtocolsByMode(m: Mode, internalTls: bool): map<ListenerName, Protocol> {
    var internal := if internalTls then Ssl else Plaintext;
    match m
    case Certificates => map[ClientAuth := Ssl, Internal := internal]
    case Tickets => map[Client := SaslSsl, Internal := internal, Bootstrap := SaslSsl]
    case Encrypted => map[Client := Ssl, Internal := internal]
    case Open => map[Client := Plaintext, Internal := internal]
  }

  // Brokers talk TLS to each other under Kerberos, or with an internal secret class.
  ghost predicate InternalTls(s: KafkaTlsSecurity) {
    AsksForKerberos(s) || s.internalSecretClass != ""
  }

  // The port of a listener, by its name.
  function PortByMode(m: Mode, internalTls: bool, n: ListenerName): Port {
    match n
    case Internal => if internalTls then 19093 else 19092
    case Bootstrap => 9095
    case _ => if m == Open then 9092 else 9093
  }

  lemma PortByName(s: KafkaTlsSecurity, n: ListenerName)
    requires s.Accepted() && (n == Bootstrap ==> ModeOf(s) == Tickets)
    ensures BindPort(s, n) == PortByMode(ModeOf(s), InternalTls(s), n)
  {
    AcceptedMode(s);
    ModeIff(s);
  }

  lemma NamesByMode(s: KafkaTlsSecurity)
    requires s.Accepted()
    ensures ExpectedNames(s)
         == match ModeOf(s)
            case Certificates => [ClientAuth, Internal]
            case Tickets => [Client, Internal, Bootstrap]
            case _ => [Client, Internal]
    ensures s.ClientPortName() == if ModeOf(s) == Open then "kafka" else "kafka-tls"
  {
    AcceptedMode(s);
  }

  lemma BoundAt(s: KafkaTlsSecurity, n: ListenerName)
    requires s.Accepted() && (n == Bootstrap ==> ModeOf(s) == Tickets)
    ensures BoundListener(s, n) == KafkaListener(n, "0.0.0.0", Number(PortByMode(ModeOf(s), InternalTls(s), n)))
  {
    PortByName(s, n);
  }

  lemma AdvertisedAt(s: KafkaTlsSecurity, fqdn: string, n: ListenerName)
    requires s.Accepted()
    ensures AdvertisedListener(s, fqdn, n)
         == if n == Internal then KafkaListener(n, fqdn, Number(PortByMode(ModeOf(s), InternalTls(s), n)))
            else KafkaListener(n, BROKER_HOST, Command(BrokerPort(if ModeOf(s) == Open then "kafka" else "kafka-tls")))
  {
    if n == Internal { PortByName(s, n); }
    NamesByMode(s);
  }

  lemma BoundListsByMode(config: KafkaListenerConfig, s: KafkaTlsSecurity, fqdn: string)
    requires s.Accepted() && Describes(config, s, fqdn)
    ensures config.listeners == BoundByMode(ModeOf(s), InternalTls(s))
  {
    NamesByMode(s);
    forall n | n in ExpectedNames(s)
      ensures BoundListener(s, n) == KafkaListener(n, "0.0.0.0", Number(PortByMode(ModeOf(s), InternalTls(s), n)))
    {
      BoundAt(s, n);
    }
  }

  lemma AdvertisedListsByMode(config: KafkaListenerConfig, s: KafkaTlsSecurity, fqdn: string)
    requires s.Accepted() && Describes(config, s, fqdn)
    ensures config.advertisedListeners == AdvertisedByMode(ModeOf(s), InternalTls(s), fqdn)
  {
    NamesByMode(s);
    var names := ExpectedNames(s);
    forall i | 0 <= i < |names|
      ensures config.advertisedListeners[i] == AdvertisedByMode(ModeOf(s), InternalTls(s), fqdn)[i]
    {
      AdvertisedAt(s, fqdn, names[i]);
    }
  }

  lemma ProtocolMapByMode(config: KafkaListenerConfig, s: KafkaTlsSecurity, fqdn: string)
    requires s.Accepted() && Describes(config, s, fqdn)
    ensures config.protocolMap == ProtocolsByMode(ModeOf(s), InternalTls(s))
  {
    NamesByMode(s);
    AcceptedMode(s);
    ModeIff(s);
    var expected := ProtocolsByMode(ModeOf(s), InternalTls(s));
    forall n
      ensures n in config.protocolMap <==> n in expected
      ensures n in expected ==> config.protocolMap[n] == expected[n]
    {
      assert n in config.protocolMap <==> n in ExpectedNames(s);
    }
  }

  // The configuration that `get_kafka_listener_config` returns, listener by listener.
  lemma ListenersByMode(config: KafkaListenerConfig, s: KafkaTlsSecurity, fqdn: string)
    requires s.Accepted() && Describes(config, s, fqdn)
    ensures config.listeners == BoundByMode(ModeOf(s), InternalTls(s))
    ensures config.advertisedListeners == AdvertisedByMode(ModeOf(s), InternalTls(s), fqdn)
    ensures config.protocolMap == ProtocolsByMode(ModeOf(s), InternalTls(s))
  {
    BoundListsByMode(config, s, fqdn);
    AdvertisedListsByMode(config, s, fqdn);
    ProtocolMapByMode(config, s, fqdn);
  }

  function MapText(m: Mode, internalTls: bool): string {
    var internal := if internalTls then "INTERNAL:SSL" else "INTERNAL:PLAINTEXT";
    match m
    case Certificates => "CLIENT_AUTH:SSL" + "," + internal
    case Tickets => "CLIENT:SASL_SSL" + "," + (internal + "," + "BOOTSTRAP:SASL_SSL")
    case Encrypted => "CLIENT:SSL" + "," + internal
    case Open => "CLIENT:PLAINTEXT" + "," + internal
  }

  lemma JoinTwo(a: string, b: string)
    ensures Join([a, b], ",") == a + "," + b
  {
    assert [a, b][1..] == [b];
  }

  lemma JoinThree(a: string, b: string, c: string)
    ensures Join([a, b, c], ",") == a + "," + (b + "," + c)
  {
    assert [a, b, c][1..] == [b, c];
    JoinTwo(b, c);
  }

  // The entries of a map, in the order of the names.
  lemma MapEntries(m: map<ListenerName, Protocol>)
    ensures ProtocolTexts(m, NAMES_IN_ORDER)
         == EntryOf(m, Client) + EntryOf(m, ClientAuth) + EntryOf(m, Internal) + EntryOf(m, Bootstrap)
  {
    var names := NAMES_IN_ORDER;
    assert names[1..] == [ClientAuth, Internal, Bootstrap];
    assert names[1..][1..] == [Internal, Bootstrap];
    assert [Internal, Bootstrap][1..] == [Bootstrap];
    assert [Bootstrap][1..] == [];
    assert ProtocolTexts(m, []) == [];
    assert ProtocolTexts(m, [Bootstrap]) == EntryOf(m, Bootstrap);
    assert ProtocolTexts(m, [Internal, Bootstrap]) == EntryOf(m, Internal) + EntryOf(m, Bootstrap);
    assert ProtocolTexts(m, [ClientAuth, Internal, Bootstrap]) == EntryOf(m, ClientAuth) + (EntryOf(m, Internal) + EntryOf(m, Bootstrap));
  }

  function EntryOf(m: map<ListenerName, Protocol>, n: ListenerName): seq<string> {
    if n in m then [NameText(n) + ":" + ProtocolText(m[n])] else []
  }

  lemma EntryTexts()
    ensures NameText(Client) + ":" + ProtocolText(Plaintext) == "CLIENT:PLAINTEXT"
    ensures NameText(Client) + ":" + ProtocolText(Ssl) == "CLIENT:SSL"
    ensures NameText(Client) + ":" + ProtocolText(SaslSsl) == "CLIENT:SASL_SSL"
    ensures NameText(ClientAuth) + ":" + ProtocolText(Ssl) == "CLIENT_AUTH:SSL"
    ensures NameText(Internal) + ":" + ProtocolText(Plaintext) == "INTERNAL:PLAINTEXT"
    ensures NameText(Internal) + ":" + ProtocolText(Ssl) == "INTERNAL:SSL"
    ensures NameText(Bootstrap) + ":" + ProtocolText(SaslSsl) == "BOOTSTRAP:SASL_SSL"
  {
  }

  // The text of the protocol map.
  lemma MapTextByMode(m: Mode, internalTls: bool)
    ensures RenderedProtocolMap(ProtocolsByMode(m, internalTls)) == MapText(m, internalTls)
  {
    var protocols := ProtocolsByMode(m, internalTls);
    EntryTexts();
    MapEntries(protocols);
    var internal := if internalTls then "INTERNAL:SSL" else "INTERNAL:PLAINTEXT";
    assert EntryOf(protocols, Internal) == [internal];
    match m {
      case Certificates =>
        assert ProtocolTexts(protocols, NAMES_IN_ORDER) == ["CLIENT_AUTH:SSL", internal];
        JoinTwo("CLIENT_AUTH:SSL", internal);
      case Tickets =>
        assert ProtocolTexts(protocols, NAMES_IN_ORDER) == ["CLIENT:SASL_SSL", internal, "BOOTSTRAP:SASL_SSL"];
        JoinThree("CLIENT:SASL_SSL", internal, "BOOTSTRAP:SASL_SSL");
      case Encrypted =>
        assert ProtocolTexts(protocols, NAMES_IN_ORDER) == ["CLIENT:SSL", internal];
        JoinTwo("CLIENT:SSL", internal);
      case Open =>
        assert ProtocolTexts(protocols, NAMES_IN_ORDER) == ["CLIENT:PLAINTEXT", internal];
        JoinTwo("CLIENT:PLAINTEXT", internal);
    }
  }

  // The text of one listener: its name, host and port.
  function EndpointText(name: string, host: string, port: string): string {
    name + "://" + host + ":" + port
  }

  // Names and numbers as they are written.
  lemma ListenerTextExact(host: string, port: string)
    ensures ListenerText(KafkaListener(Client, host, Command(port))) == EndpointText("CLIENT", host, port)
    ensures ListenerText(KafkaListener(ClientAuth, host, Command(port))) == EndpointText("CLIENT_AUTH", host, port)
    ensures ListenerText(KafkaListener(Internal, host, Command(port))) == EndpointText("INTERNAL", host, port)
    ensures ListenerText(KafkaListener(Bootstrap, host, Command(port))) == EndpointText("BOOTSTRAP", host, port)
    ensures PortText(Number(9092)) == "9092" && PortText(Number(9093)) == "9093" && PortText(Number(9095)) == "9095"
    ensures PortText(Number(19092)) == "19092" && PortText(Number(19093)) == "19093"
  {
    DecimalDigits(9, 0);
    DecimalDigits(9, 2);
    DecimalDigits(90, 9);
    DecimalDigits(909, 2);
    DecimalDigits(909, 3);
    DecimalDigits(909, 5);
    DecimalDigits(1, 9);
    DecimalDigits(19, 0);
    DecimalDigits(190, 9);
    DecimalDigits(1909, 2);
    DecimalDigits(1909, 3);
  }

  lemma DecimalDigits(n: nat, d: nat)
    requires 0 < n && d < 10
    ensures Decimal(10 * n + d) == Decimal(n) + Decimal(d)
  {
  }

  // ---- Where clients end up ----

  // The port whose address discovery publishes is bound by the bootstrap listener under
  // Kerberos and by the client listener otherwise, never by anything else.
  lemma DiscoveryLeadsToAListener(config: KafkaListenerConfig, s: KafkaTlsSecurity, fqdn: string)
    requires s.Accepted() && Describes(config, s, fqdn)
    ensures var i := if ModeOf(s) == Tickets then 2 else 0;
            && config.listeners[i].name == (match ModeOf(s) case Certificates => ClientAuth case Tickets => Bootstrap case _ => Client)
            && Exposes(s, s.DiscoveryPortName(), config.listeners[i].port)
            && forall p | p in ExposedPorts(s) && p.name == s.DiscoveryPortName() :: config.listeners[i].port == Number(p.port)
  {
    ListenersByMode(config, s, fqdn);
    PortsByMode(s);
    var ports := ClientPorts(ModeOf(s));
    assert ports[1] in ports && (ModeOf(s) == Tickets ==> ports[2] in ports);
    assert "metrics"[0] == 'm' && "bootstrap"[0] == 'b' && "kafka"[0] == 'k' && "kafka-tls"[0] == 'k';
    assert forall p | p in ports :: p == ports[0] || p == ports[1] || (|ports| > 2 && p == ports[2]);
  }

  // ---- Properties ----

  ghost predicate HasProperty(cfg: Properties, key: string, value: string) {
    key in cfg && cfg[key] == value
  }

  // The stores of one listener.
  ghost predicate HasStoreProperties(cfg: Properties, prefix: string, directory: string) {
    && HasProperty(cfg, prefix + "ssl.keystore.location", directory + "/keystore.p12")
    && HasProperty(cfg, prefix + "ssl.keystore.password", "")
    && HasProperty(cfg, prefix + "ssl.keystore.type", "PKCS12")
    && HasProperty(cfg, prefix + "ssl.truststore.location", directory + "/truststore.p12")
    && HasProperty(cfg, prefix + "ssl.truststore.password", "")
    && HasProperty(cfg, prefix + "ssl.truststore.type", "PKCS12")
  }

  function ListenerPrefix(n: ListenerName): string {
    match n
    case Client => "listener.name.client."
    case ClientAuth => "listener.name.client_auth."
    case Internal => "listener.name.internal."
    case Bootstrap => "listener.name.bootstrap."
  }

  lemma PrefixLiteral(n: ListenerName)
    ensures "listener.name." + (PropertyName(n) + ".") == ListenerPrefix(n)
  {
  }

  lemma Regroup(a: string, b: string, c: string)
    ensures a + (b + c) == (a + b) + c
  {
  }

  lemma PrefixText(n: ListenerName, x: Setting)
    ensures KeyText(Of(n, x)) == ListenerPrefix(n) + SettingText(x)
  {
    PrefixLiteral(n);
    Regroup("listener.name.", PropertyName(n) + ".", SettingText(x));
  }

  // That the operator's settings stand in the properties, under the texts of their keys.
  ghost predicate Stand(cfg: Properties, s: KafkaTlsSecurity) {
    forall k {:trigger IsSet(s, k)} | IsSet(s, k) :: HasProperty(cfg, KeyText(k), ValueText(KeyValue(k)))
  }

  lemma SettingsStand(userOverrides: Properties, s: KafkaTlsSecurity)
    ensures Stand(ServerPropertiesOf(userOverrides, s), s)
  {
    LayersHold(userOverrides, s);
  }

  lemma SetProperty(cfg: Properties, s: KafkaTlsSecurity, k: Key)
    requires Stand(cfg, s) && IsSet(s, k)
    ensures HasProperty(cfg, KeyText(k), ValueText(KeyValue(k)))
  {
  }

  lemma StoreProperty(cfg: Properties, s: KafkaTlsSecurity, n: ListenerName, x: Setting)
    requires Stand(cfg, s) && HasStores(s, n) && x != SslClientAuth
    ensures HasProperty(cfg, ListenerPrefix(n) + SettingText(x), ValueText(SettingValue(n, x)))
  {
    PrefixText(n, x);
    SetProperty(cfg, s, Of(n, x));
  }

  lemma StoresStand(cfg: Properties, s: KafkaTlsSecurity, n: ListenerName)
    requires Stand(cfg, s) && HasStores(s, n)
    ensures HasStoreProperties(cfg, ListenerPrefix(n), DirectoryPath(StoreDirectory(n)))
  {
    StoreProperty(cfg, s, n, KeystoreLocation);
    StoreProperty(cfg, s, n, KeystorePassword);
    StoreProperty(cfg, s, n, KeystoreType);
    StoreProperty(cfg, s, n, TruststoreLocation);
    StoreProperty(cfg, s, n, TruststorePassword);
    StoreProperty(cfg, s, n, TruststoreType);
    StoreFilePaths(DirectoryPath(StoreDirectory(n)));
  }

  lemma StoreFilePaths(directory: string)
    ensures directory + "/" + KEYSTORE_FILE == directory + "/keystore.p12"
    ensures directory + "/" + TRUSTSTORE_FILE == directory + "/truststore.p12"
  {
    assert "/" + KEYSTORE_FILE == "/keystore.p12" && "/" + TRUSTSTORE_FILE == "/truststore.p12";
  }

  // Whatever the user overrides, brokers talk to each other over the listener INTERNAL ...
  lemma InterBrokerIsInternal(userOverrides: Properties, s: KafkaTlsSecurity)
    ensures HasProperty(ServerPropertiesOf(userOverrides, s), "inter.broker.listener.name", "INTERNAL")
  {
    SettingsStand(userOverrides, s);
    SetProperty(ServerPropertiesOf(userOverrides, s), s, InterBrokerListenerName);
  }

  // A name that some listener of both lists and of the protocol map is written with.
  ghost predicate IsListener(config: KafkaListenerConfig, name: string) {
    && (exists i :: 0 <= i < |config.listeners| && NameText(config.listeners[i].name) == name)
    && (exists i :: 0 <= i < |config.advertisedListeners| && NameText(config.advertisedListeners[i].name) == name)
    && (exists n :: n in config.protocolMap && NameText(n) == name)
  }

  // ... which every configuration has, in both lists and in the protocol map.
  lemma InterBrokerIsAListener(config: KafkaListenerConfig, s: KafkaTlsSecurity, fqdn: string, userOverrides: Properties)
    requires Describes(config, s, fqdn)
    ensures exists name ::
              HasProperty(ServerPropertiesOf(userOverrides, s), "inter.broker.listener.name", name) && IsListener(config, name)
  {
    InterBrokerIsInternal(userOverrides, s);
    InternalIsAListener(config, s, fqdn);
  }

  lemma InternalIsAListener(config: KafkaListenerConfig, s: KafkaTlsSecurity, fqdn: string)
    requires Describes(config, s, fqdn)
    ensures IsListener(config, "INTERNAL")
  {
    assert ExpectedNames(s)[1] == Internal;
    assert NameText(config.listeners[1].name) == "INTERNAL";
    assert NameText(config.advertisedListeners[1].name) == "INTERNAL";
    assert Internal in config.protocolMap;
  }

  // What a mode asks of the properties.
  ghost predicate ForMode(cfg: Properties, m: Mode) {
    && (m == Certificates ==>
          && HasStoreProperties(cfg, "listener.name.client_auth.", "/stackable/tls-kafka-server")
          && HasProperty(cfg, "listener.name.client_auth.ssl.client.auth", "required"))
    && (m in {Tickets, Encrypted} ==>
          HasStoreProperties(cfg, "listener.name.client.", "/stackable/tls-kafka-server"))
    && (m == Tickets ==>
          && HasStoreProperties(cfg, "listener.name.bootstrap.", "/stackable/tls-kafka-server")
          && HasProperty(cfg, "sasl.enabled.mechanisms", "GSSAPI")
          && HasProperty(cfg, "sasl.kerberos.service.name", "kafka")
          && HasProperty(cfg, "sasl.mechanism.inter.broker.protocol", "GSSAPI"))
  }

  ghost predicate ForInternalTls(cfg: Properties) {
    && HasStoreProperties(cfg, "listener.name.internal.", "/stackable/tls-kafka-internal")
    && HasProperty(cfg, "listener.name.internal.ssl.client.auth", "required")
  }

  lemma CertificatesStand(cfg: Properties, s: KafkaTlsSecurity)
    requires s.HasTlsAuthentication() && Stand(cfg, s)
    ensures ForMode(cfg, Certificates)
  {
    StoresStand(cfg, s, ClientAuth);
    ClientAuthKeys();
    SetProperty(cfg, s, Of(ClientAuth, SslClientAuth));
  }

  lemma SaslStands(cfg: Properties, s: KafkaTlsSecurity)
    requires s.HasKerberosEnabled() && Stand(cfg, s)
    ensures HasProperty(cfg, "sasl.enabled.mechanisms", "GSSAPI")
    ensures HasProperty(cfg, "sasl.kerberos.service.name", "kafka")
    ensures HasProperty(cfg, "sasl.mechanism.inter.broker.protocol", "GSSAPI")
  {
    SetProperty(cfg, s, SaslEnabledMechanisms);
    SetProperty(cfg, s, SaslKerberosServiceName);
    SetProperty(cfg, s, SaslMechanismInterBroker);
  }

  lemma ClientStoresStand(cfg: Properties, s: KafkaTlsSecurity)
    requires HasStores(s, Client) && Stand(cfg, s)
    ensures HasStoreProperties(cfg, "listener.name.client.", "/stackable/tls-kafka-server")
  {
    StoresStand(cfg, s, Client);
  }

  lemma BootstrapStoresStand(cfg: Properties, s: KafkaTlsSecurity)
    requires HasStores(s, Bootstrap) && Stand(cfg, s)
    ensures HasStoreProperties(cfg, "listener.name.bootstrap.", "/stackable/tls-kafka-server")
  {
    StoresStand(cfg, s, Bootstrap);
  }

  lemma ModeStands(cfg: Properties, s: KafkaTlsSecurity)
    requires s.Accepted() && Stand(cfg, s)
    ensures ForMode(cfg, ModeOf(s))
  {
    AcceptedMode(s);
    match ModeOf(s) {
      case Certificates =>
        CertificatesStand(cfg, s);
      case Tickets =>
        ClientStoresStand(cfg, s);
        BootstrapStoresStand(cfg, s);
        SaslStands(cfg, s);
      case Encrypted =>
        ClientStoresStand(cfg, s);
      case Open =>
    }
  }

  lemma InternalTlsStands(cfg: Properties, s: KafkaTlsSecurity)
    requires Stand(cfg, s) && s.internalSecretClass != ""
    ensures ForInternalTls(cfg)
  {
    StoresStand(cfg, s, Internal);
    ClientAuthKeys();
    SetProperty(cfg, s, Of(Internal, SslClientAuth));
  }

  // The properties of a broker, for every mode and whatever the user overrides.
  lemma PropertiesByMode(userOverrides: Properties, s: KafkaTlsSecurity)
    requires s.Accepted()
    ensures ForMode(ServerPropertiesOf(userOverrides, s), ModeOf(s))
    ensures s.internalSecretClass != "" ==> ForInternalTls(ServerPropertiesOf(userOverrides, s))
    ensures HasProperty(ServerPropertiesOf(userOverrides, s), "controlled.shutdown.enable", "true")
  {
    SettingsStand(userOverrides, s);
    ModeStands(ServerPropertiesOf(userOverrides, s), s);
    if s.internalSecretClass != "" { InternalTlsStands(ServerPropertiesOf(userOverrides, s), s); }
  }

  lemma ClientAuthKeys()
    ensures KeyText(Of(ClientAuth, SslClientAuth)) == "listener.name.client_auth.ssl.client.auth"
    ensures KeyText(Of(Internal, SslClientAuth)) == "listener.name.internal.ssl.client.auth"
  {
    PrefixText(ClientAuth, SslClientAuth);
    PrefixText(Internal, SslClientAuth);
    assert "listener.name.client_auth." + "ssl.client.auth" == "listener.name.client_auth.ssl.client.auth";
    assert "listener.name.internal." + "ssl.client.auth" == "listener.name.internal.ssl.client.auth";
  }

  // ---- No other properties ----

  const STORE_SUFFIXES := {"ssl.keystore.location", "ssl.keystore.password", "ssl.keystore.type",
                           "ssl.truststore.location", "ssl.truststore.password", "ssl.truststore.type"}

  ghost predicate StoreKey(prefix: string, t: string) {
    exists suffix :: suffix in STORE_SUFFIXES && t == prefix + suffix
  }

  ghost predicate OperatorKey(s: KafkaTlsSecurity, t: string) {
    || t == "inter.broker.listener.name"
    || t == "controlled.shutdown.enable"
    || (ModeOf(s) == Certificates
        && (StoreKey("listener.name.client_auth.", t) || t == "listener.name.client_auth.ssl.client.auth"))
    || (ModeOf(s) in {Tickets, Encrypted} && StoreKey("listener.name.client.", t))
    || (ModeOf(s) == Tickets
        && (StoreKey("listener.name.bootstrap.", t)
            || t in {"sasl.enabled.mechanisms", "sasl.kerberos.service.name", "sasl.mechanism.inter.broker.protocol"}))
    || (s.internalSecretClass != ""
        && (StoreKey("listener.name.internal.", t) || t == "listener.name.internal.ssl.client.auth"))
  }

  lemma SetKeyIsOperatorKey(s: KafkaTlsSecurity, k: Key)
    requires s.Accepted() && IsSet(s, k)
    ensures OperatorKey(s, KeyText(k))
  {
    AcceptedMode(s);
    ClientAuthKeys();
    if k.Of? {
      PrefixText(k.listener, k.setting);
      if k.setting != SslClientAuth {
        assert SettingText(k.setting) in STORE_SUFFIXES;
        assert StoreKey(ListenerPrefix(k.listener), KeyText(k));
      }
    }
  }

  // What the operator does not set is the user's.
  lemma OtherKeysAreTheUsers(userOverrides: Properties, s: KafkaTlsSecurity, t: string)
    requires s.Accepted() && !OperatorKey(s, t)
    ensures t in ServerPropertiesOf(userOverrides, s) <==> t in userOverrides
    ensures t in userOverrides ==> ServerPropertiesOf(userOverrides, s)[t] == userOverrides[t]
  {
    forall k | IsSet(s, k)
      ensures KeyText(k) != t
    {
      SetKeyIsOperatorKey(s, k);
    }
    assert NotSet(s, t);
    UserKeepsTheRest(userOverrides, s, t);
  }
}
