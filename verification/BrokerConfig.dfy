/**
 The security part of `server.properties` (rust/crd/src/security.rs, `config_settings`) and
 its layering over the user's overrides (rust/operator-binary/src/kafka_controller.rs).
 */
module BrokerConfig {
  import opened Common
  import opened Text
  import opened Security
  import opened Listeners

  // The directories that configuration, environment and commands name.
  datatype Directory =
    | TlsKcatDir
    | TlsKafkaServerDir
    | TlsKafkaInternalDir
    | KerberosDir
    | ListenerBrokerDir
    | ListenerBootstrapDir
    | DataDir
    | ConfigDir
    | LogConfigDir
    | LogDir
    | JmxDir

  function DirectoryPath(d: Directory): string {
    match d
    case TlsKcatDir => "/stackable/tls-kcat"
    case TlsKafkaServerDir => "/stackable/tls-kafka-server"
    case TlsKafkaInternalDir => "/stackable/tls-kafka-internal"
    case KerberosDir => "/stackable/kerberos"
    case ListenerBrokerDir => STACKABLE_LISTENER_BROKER_DIR
    case ListenerBootstrapDir => "/stackable/listener-bootstrap"
    case DataDir => "/stackable/data"
    case ConfigDir => "/stackable/config"
    case LogConfigDir => "/stackable/log_config"
    case LogDir => "/stackable/log"
    case JmxDir => "/stackable/jmx"
  }

  type Properties = map<string, string>

  // The settings of a listener's key store and trust store.
  datatype Setting =
    | KeystoreLocation
    | KeystorePassword
    | KeystoreType
    | TruststoreLocation
    | TruststorePassword
    | TruststoreType
    | SslClientAuth

  const STORE_SETTINGS := {KeystoreLocation, KeystorePassword, KeystoreType,
                           TruststoreLocation, TruststorePassword, TruststoreType}

  // Kafka names a listener's properties by its lower-case name.
  function PropertyName(n: ListenerName): string {
    match n
    case Client => "client"
    case ClientAuth => "client_auth"
    case Internal => "internal"
    case Bootstrap => "bootstrap"
  }

  function LowerCase(c: char): char {
    if 'A' <= c <= 'Z' then c - 'A' + 'a' else c
  }

  lemma PropertyNameIsLowerCase(n: ListenerName)
    ensures |PropertyName(n)| == |NameText(n)|
    ensures forall i | 0 <= i < |NameText(n)| :: PropertyName(n)[i] == LowerCase(NameText(n)[i])
  {
  }

  function SettingText(x: Setting): string {
    match x
    case KeystoreLocation => "ssl.keystore.location"
    case KeystorePassword => "ssl.keystore.password"
    case KeystoreType => "ssl.keystore.type"
    case TruststoreLocation => "ssl.truststore.location"
    case TruststorePassword => "ssl.truststore.password"
    case TruststoreType => "ssl.truststore.type"
    case SslClientAuth => "ssl.client.auth"
  }

  function Dotted(a: string, b: string): string {
    a + ['.'] + b
  }

  // The keys `config_settings` may write. They are kept apart from their text until the
  // properties are layered; `KeyTextInjective` is what allows that.
  datatype Key =
    | Of(listener: ListenerName, setting: Setting)
    | InterBrokerListenerName
    | SaslEnabledMechanisms
    | SaslKerberosServiceName
    | SaslMechanismInterBroker

  function KeyText(k: Key): string {
    match k
    case Of(n, x) => "listener.name." + Dotted(PropertyName(n), SettingText(x))
    case InterBrokerListenerName => "inter.broker.listener.name"
    case SaslEnabledMechanisms => "sasl.enabled.mechanisms"
    case SaslKerberosServiceName => "sasl.kerberos.service.name"
    case SaslMechanismInterBroker => "sasl.mechanism.inter.broker.protocol"
  }

  const CONTROLLED_SHUTDOWN := "controlled.shutdown.enable"

  // ---- Keys are told apart ----

  lemma PropertyNameInjective(a: ListenerName, b: ListenerName)
    requires PropertyName(a) == PropertyName(b)
    ensures a == b
  {
    assert PropertyName(a)[0] == PropertyName(b)[0];
    assert |PropertyName(a)| == |PropertyName(b)|;
  }

  lemma PropertyNameHasNoDot(n: ListenerName)
    ensures '.' !in PropertyName(n)
  {
  }

  lemma SettingTextInjective(a: Setting, b: Setting)
    requires SettingText(a) == SettingText(b)
    ensures a == b
  {
    var s, t := SettingText(a), SettingText(b);
    assert s[4] == t[4] && s[|s| - 1] == t[|t| - 1] && |s| == |t|;
  }

  lemma ListenerKeyInjective(m: ListenerName, x: Setting, n: ListenerName, y: Setting)
    requires KeyText(Of(m, x)) == KeyText(Of(n, y))
    ensures m == n && x == y
  {
    SamePrefix("listener.name.", Dotted(PropertyName(m), SettingText(x)), Dotted(PropertyName(n), SettingText(y)));
    PropertyNameHasNoDot(m);
    PropertyNameHasNoDot(n);
    SameHead(PropertyName(m), SettingText(x), PropertyName(n), SettingText(y), '.');
    PropertyNameInjective(m, n);
    SettingTextInjective(x, y);
  }

  // The initial of a key, and the sixth letter of those that start with "sasl.".
  function KeyMark(k: Key): (char, char) {
    match k
    case Of(_, _) => ('l', 'n')
    case InterBrokerListenerName => ('i', '.')
    case SaslEnabledMechanisms => ('s', 'e')
    case SaslKerberosServiceName => ('s', 'k')
    case SaslMechanismInterBroker => ('s', 'm')
  }

  lemma KeyTextMark(k: Key)
    ensures |KeyText(k)| > 5 && KeyText(k)[0] == KeyMark(k).0
    ensures KeyMark(k).0 == 's' ==> KeyText(k)[5] == KeyMark(k).1
  {
  }

  lemma KeyTextInjective(j: Key, k: Key)
    requires KeyText(j) == KeyText(k)
    ensures j == k
  {
    KeyTextMark(j);
    KeyTextMark(k);
    if j.Of? && k.Of? { ListenerKeyInjective(j.listener, j.setting, k.listener, k.setting); }
  }

  // ---- What the settings are ----

  // The directory of a listener's stores.
  function StoreDirectory(n: ListenerName): Directory {
    if n == Internal then TlsKafkaInternalDir else TlsKafkaServerDir
  }

  // The values `config_settings` may write, like the keys kept apart from their text.
  datatype Value =
    | StoreFile(directory: Directory, file: string)
    | StorePassword
    | StoreType
    | Required
    | Gssapi
    | ServiceName
    | ListenerValue(name: ListenerName)

  const KEYSTORE_FILE := "keystore.p12"
  const TRUSTSTORE_FILE := "truststore.p12"

  function ValueText(v: Value): string {
    match v
    case StoreFile(d, file) => DirectoryPath(d) + "/" + file
    case StorePassword => ""
    case StoreType => "PKCS12"
    case Required => "required"
    case Gssapi => "GSSAPI"
    case ServiceName => "kafka"
    case ListenerValue(n) => NameText(n)
  }

  function SettingValue(n: ListenerName, x: Setting): Value {
    match x
    case KeystoreLocation => StoreFile(StoreDirectory(n), KEYSTORE_FILE)
    case TruststoreLocation => StoreFile(StoreDirectory(n), TRUSTSTORE_FILE)
    case KeystorePassword | TruststorePassword => StorePassword
    case KeystoreType | TruststoreType => StoreType
    case SslClientAuth => Required
  }

  // The listeners that `config_settings` gives stores to.
  predicate HasStores(s: KafkaTlsSecurity, n: ListenerName) {
    match n
    case ClientAuth => s.HasTlsAuthentication()
    case Client => !s.HasTlsAuthentication() && s.serverSecretClass.Some?
    case Bootstrap => s.HasKerberosEnabled()
    case Internal => s.TlsInternalSecretClass().Some?
  }

  predicate IsSet(s: KafkaTlsSecurity, k: Key) {
    match k
    case Of(n, x) => HasStores(s, n) && (x == SslClientAuth ==> n == ClientAuth || n == Internal)
    case InterBrokerListenerName => true
    case _ => s.HasKerberosEnabled()
  }

  function KeyValue(k: Key): Value {
    match k
    case Of(n, x) => SettingValue(n, x)
    case InterBrokerListenerName => ListenerValue(Internal)
    case SaslKerberosServiceName => ServiceName
    case SaslEnabledMechanisms | SaslMechanismInterBroker => Gssapi
  }

  type Settings = map<Key, Value>

  // Exactly the settings that apply to `s`, each with its value.
  ghost predicate AreSettings(config: Settings, s: KafkaTlsSecurity) {
    && (forall k :: k in config <==> IsSet(s, k))
    && (forall k | k in config :: config[k] == KeyValue(k))
  }

  function AllKeys(): set<Key> {
    (set n, x | n in {Client, ClientAuth, Internal, Bootstrap} && x in STORE_SETTINGS + {SslClientAuth} :: Of(n, x))
    + {InterBrokerListenerName, SaslEnabledMechanisms, SaslKerberosServiceName, SaslMechanismInterBroker}
  }

  lemma AllKeysComplete(k: Key)
    ensures k in AllKeys()
  {
    if k.Of? {
      var n, x := k.listener, k.setting;
      match n {
        case Client => case ClientAuth => case Internal => case Bootstrap =>
      }
      match x {
        case KeystoreLocation => case KeystorePassword => case KeystoreType =>
        case TruststoreLocation => case TruststorePassword => case TruststoreType =>
        case SslClientAuth =>
      }
      assert k == Of(n, x);
    }
  }

  // What `config_settings` returns.
  function SettingsOf(s: KafkaTlsSecurity): (config: Settings)
    ensures AreSettings(config, s)
  {
    assert forall k :: k in AllKeys() by {
      forall k
        ensures k in AllKeys()
      {
        AllKeysComplete(k);
      }
    }
    map k | k in AllKeys() && IsSet(s, k) :: KeyValue(k)
  }

  predicate IsStoreKey(n: ListenerName, k: Key) {
    k.Of? && k.listener == n && k.setting != SslClientAuth
  }

  // The six inserts for the stores of one listener.
  method InsertStores(config: Settings, n: ListenerName) returns (r: Settings)
    ensures forall k :: k in r <==> k in config || IsStoreKey(n, k)
    ensures forall k | k in r :: r[k] == if IsStoreKey(n, k) then KeyValue(k) else config[k]
  {
    r := config;
    r := r[Of(n, KeystoreLocation) := StoreFile(StoreDirectory(n), KEYSTORE_FILE)];
    r := r[Of(n, KeystorePassword) := StorePassword];
    r := r[Of(n, KeystoreType) := StoreType];
    r := r[Of(n, TruststoreLocation) := StoreFile(StoreDirectory(n), TRUSTSTORE_FILE)];
    r := r[Of(n, TruststorePassword) := StorePassword];
    r := r[Of(n, TruststoreType) := StoreType];
  }

  // `config_settings`
  method ConfigSettings(s: KafkaTlsSecurity) returns (config: Settings)
    ensures config == SettingsOf(s)
    ensures HasGlobals(config, s)
  {
    config := map[];
    if s.HasTlsAuthentication() {
      config := InsertStores(config, ClientAuth);
      config := config[Of(ClientAuth, SslClientAuth) := Required];
    } else if s.serverSecretClass.Some? {
      config := InsertStores(config, Client);
    }
    if s.HasKerberosEnabled() {
      config := InsertStores(config, Bootstrap);
    }
    if s.TlsInternalSecretClass().Some? {
      config := InsertStores(config, Internal);
      config := config[Of(Internal, SslClientAuth) := Required];
    }
    if s.HasKerberosEnabled() {
      config := config[SaslEnabledMechanisms := Gssapi];
      config := config[SaslKerberosServiceName := ServiceName];
      config := config[SaslMechanismInterBroker := Gssapi];
    }
    config := config[InterBrokerListenerName := ListenerValue(Internal)];
    SettingsUnique(config, s);
    GlobalsSet(config, s);
  }

  // The settings that are not about one listener.
  ghost predicate HasGlobals(config: Settings, s: KafkaTlsSecurity) {
    && InterBrokerListenerName in config && config[InterBrokerListenerName] == ListenerValue(Internal)
    && (s.HasKerberosEnabled() ==>
          && SaslEnabledMechanisms in config && config[SaslEnabledMechanisms] == Gssapi
          && SaslMechanismInterBroker in config && config[SaslMechanismInterBroker] == Gssapi
          && SaslKerberosServiceName in config && config[SaslKerberosServiceName] == ServiceName)
  }

  lemma GlobalsSet(config: Settings, s: KafkaTlsSecurity)
    requires AreSettings(config, s)
    ensures HasGlobals(config, s)
  {
    assert IsSet(s, InterBrokerListenerName) && InterBrokerListenerName in config;
    if s.HasKerberosEnabled() {
      assert SaslEnabledMechanisms in config && SaslMechanismInterBroker in config && SaslKerberosServiceName in config;
    }
  }

  lemma SettingsUnique(config: Settings, s: KafkaTlsSecurity)
    requires AreSettings(config, s)
    ensures config == SettingsOf(s)
  {
    var other := SettingsOf(s);
    assert forall k :: k in config <==> k in other;
  }

  // ---- Layering ----

  function Rendered(config: Settings): (r: Properties)
    ensures forall k | k in config :: KeyText(k) in r && r[KeyText(k)] == ValueText(config[k])
    ensures forall t | t in r :: exists k :: k in config && t == KeyText(k)
  {
    assert forall j, k | KeyText(j) == KeyText(k) :: j == k by {
      forall j, k | KeyText(j) == KeyText(k)
        ensures j == k
      {
        KeyTextInjective(j, k);
      }
    }
    map k | k in config :: KeyText(k) := ValueText(config[k])
  }

  function GracefulShutdownProperties(): Properties {
    map[CONTROLLED_SHUTDOWN := "true"]
  }

  // `BTreeMap::extend`: the later value wins.
  function Extended(base: Properties, more: Properties): Properties {
    base + more
  }

  function ServerPropertiesOf(userOverrides: Properties, s: KafkaTlsSecurity): Properties {
    Extended(Extended(userOverrides, Rendered(SettingsOf(s))), GracefulShutdownProperties())
  }

  // The properties of a broker: the operator's settings over the user's.
  method ServerProperties(userOverrides: Properties, s: KafkaTlsSecurity) returns (serverCfg: Properties)
    ensures serverCfg == ServerPropertiesOf(userOverrides, s)
    ensures OperatorOverUser(serverCfg, userOverrides, s)
    ensures "inter.broker.listener.name" in serverCfg && serverCfg["inter.broker.listener.name"] == "INTERNAL"
  {
    serverCfg := userOverrides;
    var settings := ConfigSettings(s);
    serverCfg := Extended(serverCfg, Rendered(settings));
    serverCfg := Extended(serverCfg, GracefulShutdownProperties());
    LayersHold(userOverrides, s);
    InterBrokerText(serverCfg, userOverrides, s);
  }

  lemma InterBrokerText(serverCfg: Properties, userOverrides: Properties, s: KafkaTlsSecurity)
    requires OperatorOverUser(serverCfg, userOverrides, s)
    ensures "inter.broker.listener.name" in serverCfg && serverCfg["inter.broker.listener.name"] == "INTERNAL"
  {
    assert IsSet(s, InterBrokerListenerName) && KeyText(InterBrokerListenerName) == "inter.broker.listener.name";
    assert ValueText(KeyValue(InterBrokerListenerName)) == "INTERNAL";
  }

  ghost predicate NotSet(s: KafkaTlsSecurity, t: string) {
    t != CONTROLLED_SHUTDOWN && forall k | IsSet(s, k) :: KeyText(k) != t
  }

  // Under every key the operator sets stands its value, and under every other the user's.
  ghost predicate OperatorOverUser(serverCfg: Properties, userOverrides: Properties, s: KafkaTlsSecurity) {
    && (forall k {:trigger IsSet(s, k)} | IsSet(s, k) ::
          KeyText(k) in serverCfg && serverCfg[KeyText(k)] == ValueText(KeyValue(k)))
    && (forall t {:trigger NotSet(s, t)} | NotSet(s, t) ::
          && (t in serverCfg <==> t in userOverrides)
          && (t in userOverrides ==> serverCfg[t] == userOverrides[t]))
  }

  lemma LayersHold(userOverrides: Properties, s: KafkaTlsSecurity)
    ensures OperatorOverUser(ServerPropertiesOf(userOverrides, s), userOverrides, s)
  {
    forall k | IsSet(s, k)
      ensures KeyText(k) in ServerPropertiesOf(userOverrides, s)
      ensures ServerPropertiesOf(userOverrides, s)[KeyText(k)] == ValueText(KeyValue(k))
    {
      OperatorWins(userOverrides, s, k);
    }
    forall t | NotSet(s, t)
      ensures t in ServerPropertiesOf(userOverrides, s) <==> t in userOverrides
      ensures t in userOverrides ==> ServerPropertiesOf(userOverrides, s)[t] == userOverrides[t]
    {
      UserKeepsTheRest(userOverrides, s, t);
    }
  }

  lemma RenderedExact(config: Settings, k: Key)
    ensures KeyText(k) in Rendered(config) <==> k in config
    ensures k in config ==> Rendered(config)[KeyText(k)] == ValueText(config[k])
  {
    if KeyText(k) in Rendered(config) {
      var j :| j in config && KeyText(k) == KeyText(j);
      KeyTextInjective(j, k);
    }
  }

  // No override of the user survives under a key the operator sets, ...
  lemma OperatorWins(userOverrides: Properties, s: KafkaTlsSecurity, k: Key)
    ensures IsSet(s, k) ==> KeyText(k) in ServerPropertiesOf(userOverrides, s)
                            && ServerPropertiesOf(userOverrides, s)[KeyText(k)] == ValueText(KeyValue(k))
    ensures !IsSet(s, k) ==> (KeyText(k) in ServerPropertiesOf(userOverrides, s) <==> KeyText(k) in userOverrides)
  {
    RenderedExact(SettingsOf(s), k);
    NoKeyIsShutdown(k);
  }

  lemma NoKeyIsShutdown(k: Key)
    ensures KeyText(k) != CONTROLLED_SHUTDOWN
  {
    KeyTextMark(k);
    assert CONTROLLED_SHUTDOWN[0] == 'c';
  }

  // ... and every other override does.
  lemma UserKeepsTheRest(userOverrides: Properties, s: KafkaTlsSecurity, t: string)
    requires NotSet(s, t)
    ensures t in ServerPropertiesOf(userOverrides, s) <==> t in userOverrides
    ensures t in userOverrides ==> ServerPropertiesOf(userOverrides, s)[t] == userOverrides[t]
  {
    assert t !in Rendered(SettingsOf(s));
  }

  // ---- TLS completeness ----

  predicate IsTls(p: Protocol) {
    p.Ssl? || p.SaslSsl?
  }

  // Every listener that speaks TLS has the six keys of its stores, with the operator's values.
  ghost predicate TlsComplete(serverCfg: Properties, s: KafkaTlsSecurity) {
    forall n, x {:trigger KeyText(Of(n, x))} | n in ExpectedNames(s) && IsTls(ExpectedProtocol(s, n)) && x != SslClientAuth ::
      KeyText(Of(n, x)) in serverCfg && serverCfg[KeyText(Of(n, x))] == ValueText(SettingValue(n, x))
  }

  // For accepted configurations this holds under every user override exactly when Kerberos
  // does not come without an internal secret class: the INTERNAL listener then speaks TLS
  // with no stores of its own.
  lemma TlsCompleteIff(s: KafkaTlsSecurity)
    requires s.Accepted()
    ensures (forall userOverrides :: TlsComplete(ServerPropertiesOf(userOverrides, s), s))
            <==> !(s.HasKerberosEnabled() && s.internalSecretClass == "")
  {
    if s.HasKerberosEnabled() && s.internalSecretClass == "" {
      InternalLacksStores(s);
      assert !TlsComplete(ServerPropertiesOf(map[], s), s);
    } else {
      forall userOverrides
        ensures TlsComplete(ServerPropertiesOf(userOverrides, s), s)
      {
        TlsListenersComplete(userOverrides, s);
      }
    }
  }

  lemma InternalLacksStores(s: KafkaTlsSecurity)
    requires s.HasKerberosEnabled() && s.internalSecretClass == ""
    ensures !TlsComplete(ServerPropertiesOf(map[], s), s)
  {
    OperatorWins(map[], s, Of(Internal, KeystoreLocation));
    LacksKeystore(ServerPropertiesOf(map[], s), s);
  }

  lemma LacksKeystore(serverCfg: Properties, s: KafkaTlsSecurity)
    requires InternalIsSecure(s) && KeyText(Of(Internal, KeystoreLocation)) !in serverCfg
    ensures !TlsComplete(serverCfg, s)
  {
    assert ExpectedNames(s)[1] == Internal && Internal in ExpectedNames(s);
  }

  lemma TlsListenersComplete(userOverrides: Properties, s: KafkaTlsSecurity)
    requires s.Accepted() && !(s.HasKerberosEnabled() && s.internalSecretClass == "")
    ensures TlsComplete(ServerPropertiesOf(userOverrides, s), s)
  {
    forall n, x | n in ExpectedNames(s) && IsTls(ExpectedProtocol(s, n)) && x != SslClientAuth
      ensures KeyText(Of(n, x)) in ServerPropertiesOf(userOverrides, s)
      ensures ServerPropertiesOf(userOverrides, s)[KeyText(Of(n, x))] == ValueText(SettingValue(n, x))
    {
      TlsListenerHasStores(s, n);
      OperatorWins(userOverrides, s, Of(n, x));
    }
  }

  lemma TlsListenerHasStores(s: KafkaTlsSecurity, n: ListenerName)
    requires s.Accepted() && !(s.HasKerberosEnabled() && s.internalSecretClass == "")
    requires n in ExpectedNames(s) && IsTls(ExpectedProtocol(s, n))
    ensures HasStores(s, n)
  {
    AcceptedIsExclusive(s);
  }
}
