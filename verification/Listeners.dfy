/**
 Listeners of a broker (rust/crd/src/listener.rs) and their agreement with the ports exposed
 elsewhere.
 */
module Listeners {
  import opened Common
  import opened Text
  import opened Security

  const LISTENER_LOCAL_ADDRESS := "0.0.0.0"
  const STACKABLE_LISTENER_BROKER_DIR := "/stackable/listener-broker"

  datatype Protocol = Plaintext | Ssl | SaslSsl

  datatype ListenerName = Client | ClientAuth | Internal | Bootstrap

  // The port of a listener, before `to_string`: a number, or a shell command that prints one.
  datatype ListenerPort = Number(port: Port) | Command(text: string)

  datatype KafkaListener = KafkaListener(name: ListenerName, host: string, port: ListenerPort)

  datatype KafkaListenerConfig = KafkaListenerConfig(
    listeners: seq<KafkaListener>,
    advertisedListeners: seq<KafkaListener>,
    protocolMap: map<ListenerName, Protocol>)

  datatype ListenerError = ObjectHasNoNamespace

  // What of the cluster object the listeners depend on.
  datatype Cluster = Cluster(namespace: Option<string>, clusterDomain: string)

  function NodeAddressCmd(directory: string): string {
    "$(cat " + directory + "/default-address/address)"
  }

  function NodePortCmd(directory: string, portName: string): string {
    "$(cat " + directory + "/default-address/ports/" + portName + ")"
  }

  // `pod_fqdn`
  function PodFqdn(cluster: Cluster, objectName: string): Result<string, ListenerError> {
    match cluster.namespace
    case None => Err(ObjectHasNoNamespace)
    case Some(namespace) => Ok("$POD_NAME." + objectName + "." + namespace + ".svc." + cluster.clusterDomain)
  }

  // ---- The specification, listener by listener ----

  function ClientListenerName(s: KafkaTlsSecurity): ListenerName {
    if s.HasTlsAuthentication() then ClientAuth else Client
  }

  function ClientProtocol(s: KafkaTlsSecurity): Protocol {
    if s.HasTlsAuthentication() then Ssl
    else if s.HasKerberosEnabled() then SaslSsl
    else if s.serverSecretClass.Some? then Ssl
    else Plaintext
  }

  // Anything but plaintext is served on the secure port.
  function ClientBindPort(s: KafkaTlsSecurity): Port {
    if ClientProtocol(s).Plaintext? then CLIENT_PORT else SECURE_CLIENT_PORT
  }

  predicate InternalIsSecure(s: KafkaTlsSecurity) {
    s.HasKerberosEnabled() || s.internalSecretClass != ""
  }

  function InternalBindPort(s: KafkaTlsSecurity): Port {
    if InternalIsSecure(s) then SECURE_INTERNAL_PORT else INTERNAL_PORT
  }

  function ExpectedNames(s: KafkaTlsSecurity): seq<ListenerName> {
    [ClientListenerName(s), Internal] + if s.HasKerberosEnabled() then [Bootstrap] else []
  }

  function ExpectedProtocol(s: KafkaTlsSecurity, name: ListenerName): Protocol {
    match name
    case Internal => if InternalIsSecure(s) then Ssl else Plaintext
    case Bootstrap => SaslSsl
    case _ => ClientProtocol(s)
  }

  function BindPort(s: KafkaTlsSecurity, name: ListenerName): Port {
    match name
    case Internal => InternalBindPort(s)
    case Bootstrap => s.BootstrapPort()
    case _ => ClientBindPort(s)
  }

  // Clients are sent to the broker's own Listener object, peers to the pod.
  function AdvertisedHost(fqdn: string, name: ListenerName): string {
    if name == Internal then fqdn else NodeAddressCmd(STACKABLE_LISTENER_BROKER_DIR)
  }

  function AdvertisedPort(s: KafkaTlsSecurity, name: ListenerName): ListenerPort {
    if name == Internal then Number(InternalBindPort(s))
    else Command(NodePortCmd(STACKABLE_LISTENER_BROKER_DIR, s.ClientPortName()))
  }

  function BoundListener(s: KafkaTlsSecurity, name: ListenerName): KafkaListener {
    KafkaListener(name, LISTENER_LOCAL_ADDRESS, Number(BindPort(s, name)))
  }

  function AdvertisedListener(s: KafkaTlsSecurity, fqdn: string, name: ListenerName): KafkaListener {
    KafkaListener(name, AdvertisedHost(fqdn, name), AdvertisedPort(s, name))
  }

  // That a configuration has these listeners: the same names in the same order in both
  // lists, and a protocol for exactly these names.
  ghost predicate Describes(config: KafkaListenerConfig, s: KafkaTlsSecurity, fqdn: string) {
    var names := ExpectedNames(s);
    && |config.listeners| == |config.advertisedListeners| == |names|
    && (forall i | 0 <= i < |names| ::
          && config.listeners[i] == BoundListener(s, names[i])
          && config.advertisedListeners[i] == AdvertisedListener(s, fqdn, names[i]))
    && (forall n :: n in config.protocolMap <==> n in names)
    && (forall n | n in config.protocolMap :: config.protocolMap[n] == ExpectedProtocol(s, n))
  }

  lemma ListsDescribe(config: KafkaListenerConfig, s: KafkaTlsSecurity, fqdn: string)
    requires config.listeners
          == [BoundListener(s, ClientListenerName(s)), BoundListener(s, Internal)]
             + if s.HasKerberosEnabled() then [BoundListener(s, Bootstrap)] else []
    requires config.advertisedListeners
          == [AdvertisedListener(s, fqdn, ClientListenerName(s)), AdvertisedListener(s, fqdn, Internal)]
             + if s.HasKerberosEnabled() then [AdvertisedListener(s, fqdn, Bootstrap)] else []
    requires forall n :: n in config.protocolMap <==> n in ExpectedNames(s)
    requires forall n | n in config.protocolMap :: config.protocolMap[n] == ExpectedProtocol(s, n)
    ensures Describes(config, s, fqdn)
  {
  }

  // `get_kafka_listener_config`
  method GetKafkaListenerConfig(cluster: Cluster, s: KafkaTlsSecurity, objectName: string)
    returns (r: Result<KafkaListenerConfig, ListenerError>)
    ensures r.Err? <==> cluster.namespace.None?
    ensures r.Ok? ==> Describes(r.value, s, PodFqdn(cluster, objectName).value)
  {
    var fqdn := PodFqdn(cluster, objectName);
    if fqdn.Err? {
      return Err(fqdn.error);
    }
    var podFqdn := fqdn.value;
    var listeners: seq<KafkaListener> := [];
    var advertised: seq<KafkaListener> := [];
    var protocols: map<ListenerName, Protocol> := map[];
    var brokerHost := NodeAddressCmd(STACKABLE_LISTENER_BROKER_DIR);
    var brokerPort := Command(NodePortCmd(STACKABLE_LISTENER_BROKER_DIR, s.ClientPortName()));

    if s.HasTlsAuthentication() {
      listeners := listeners + [KafkaListener(ClientAuth, LISTENER_LOCAL_ADDRESS, Number(s.ClientPort()))];
      advertised := advertised + [KafkaListener(ClientAuth, brokerHost, brokerPort)];
      protocols := protocols[ClientAuth := Ssl];
    } else if s.HasKerberosEnabled() {
      listeners := listeners + [KafkaListener(Client, LISTENER_LOCAL_ADDRESS, Number(SECURE_CLIENT_PORT))];
      advertised := advertised + [KafkaListener(Client, brokerHost, brokerPort)];
      protocols := protocols[Client := SaslSsl];
    } else if s.serverSecretClass.Some? {
      listeners := listeners + [KafkaListener(Client, LISTENER_LOCAL_ADDRESS, Number(s.ClientPort()))];
      advertised := advertised + [KafkaListener(Client, brokerHost, brokerPort)];
      protocols := protocols[Client := Ssl];
    } else {
      listeners := listeners + [KafkaListener(Client, LISTENER_LOCAL_ADDRESS, Number(CLIENT_PORT))];
      advertised := advertised + [KafkaListener(Client, brokerHost, brokerPort)];
      protocols := protocols[Client := Plaintext];
    }
    var name := ClientListenerName(s);
    assert listeners == [BoundListener(s, name)];
    assert advertised == [AdvertisedListener(s, podFqdn, name)];
    assert protocols == map[name := ClientProtocol(s)];

    if s.HasKerberosEnabled() || s.TlsInternalSecretClass().Some? {
      listeners := listeners + [KafkaListener(Internal, LISTENER_LOCAL_ADDRESS, Number(SECURE_INTERNAL_PORT))];
      advertised := advertised + [KafkaListener(Internal, podFqdn, Number(SECURE_INTERNAL_PORT))];
      protocols := protocols[Internal := Ssl];
    } else {
      listeners := listeners + [KafkaListener(Internal, LISTENER_LOCAL_ADDRESS, Number(s.InternalPort()))];
      advertised := advertised + [KafkaListener(Internal, podFqdn, Number(s.InternalPort()))];
      protocols := protocols[Internal := Plaintext];
    }
    assert listeners == [BoundListener(s, name), BoundListener(s, Internal)];
    assert advertised == [AdvertisedListener(s, podFqdn, name), AdvertisedListener(s, podFqdn, Internal)];

    if s.HasKerberosEnabled() {
      listeners := listeners + [KafkaListener(Bootstrap, LISTENER_LOCAL_ADDRESS, Number(s.BootstrapPort()))];
      advertised := advertised + [KafkaListener(Bootstrap, brokerHost, brokerPort)];
      protocols := protocols[Bootstrap := SaslSsl];
    }
    r := Ok(KafkaListenerConfig(listeners, advertised, protocols));
    ListsDescribe(r.value, s, podFqdn);
  }

  // ---- Agreement ----

  ghost predicate DistinctNames(listeners: seq<KafkaListener>) {
    forall i, j | 0 <= i < j < |listeners| :: listeners[i].name != listeners[j].name
  }

  ghost predicate DistinctPorts(listeners: seq<KafkaListener>) {
    forall i, j | 0 <= i < j < |listeners| :: listeners[i].port != listeners[j].port
  }

  // Names are distinct, and no two listeners bind the same port.
  lemma ListenersDistinct(config: KafkaListenerConfig, s: KafkaTlsSecurity, fqdn: string)
    requires Describes(config, s, fqdn)
    ensures DistinctNames(config.listeners) && DistinctNames(config.advertisedListeners)
    ensures DistinctPorts(config.listeners)
  {
  }

  // Both lists name the same listeners in the same order, the protocol map has exactly these
  // names, and INTERNAL, the inter-broker listener, is one of them.
  lemma ListenersAgree(config: KafkaListenerConfig, s: KafkaTlsSecurity, fqdn: string)
    requires Describes(config, s, fqdn)
    ensures |config.listeners| == |config.advertisedListeners|
    ensures forall i | 0 <= i < |config.listeners| :: config.listeners[i].name == config.advertisedListeners[i].name
    ensures forall n :: n in config.protocolMap <==> exists i :: 0 <= i < |config.listeners| && config.listeners[i].name == n
    ensures Internal in config.protocolMap
  {
    var names := ExpectedNames(s);
    assert names[1] == Internal;
    forall n | n in config.protocolMap
      ensures exists i :: 0 <= i < |config.listeners| && config.listeners[i].name == n
    {
      var i :| 0 <= i < |names| && names[i] == n;
      assert config.listeners[i].name == n;
    }
  }

  ghost predicate Exposes(s: KafkaTlsSecurity, name: string, port: ListenerPort) {
    exists p :: p in ExposedPorts(s) && p.name == name && port == Number(p.port)
  }

  // The port the client listener binds is the exposed one: for validated classes, exactly
  // when `validate_authentication_methods` accepts.
  lemma ClientPortAgreesIff(config: KafkaListenerConfig, s: KafkaTlsSecurity, fqdn: string)
    requires Validation(s.classes).Ok? && Describes(config, s, fqdn)
    ensures config.listeners[0].name == ClientListenerName(s)
    ensures Exposes(s, s.ClientPortName(), config.listeners[0].port) <==> s.ValidAuthenticationMethods()
  {
    AcceptedIsExclusive(s);
    DiscoveryPortIsExposed(s);
    var own := NamedPort(s.ClientPortName(), s.ClientPort());
    assert own == ExposedPorts(s)[1] && own in ExposedPorts(s);
    assert config.listeners[0] == BoundListener(s, ClientListenerName(s));
  }

  // The bootstrap listener binds the exposed bootstrap port, which discovery looks up.
  lemma BootstrapPortAgrees(config: KafkaListenerConfig, s: KafkaTlsSecurity, fqdn: string)
    requires s.HasKerberosEnabled() && Describes(config, s, fqdn)
    ensures config.listeners[2].name == Bootstrap
    ensures Exposes(s, s.DiscoveryPortName(), config.listeners[2].port)
  {
    assert ExposedPorts(s)[2] in ExposedPorts(s);
  }

  ghost predicate DistinctEndpoints(listeners: seq<KafkaListener>) {
    forall i, j | 0 <= i < j < |listeners| :: listeners[i].host != listeners[j].host || listeners[i].port != listeners[j].port
  }

  // Under Kerberos, clients of BOOTSTRAP are sent to the very address of CLIENT.
  lemma AdvertisedEndpointsDistinctIff(config: KafkaListenerConfig, s: KafkaTlsSecurity, fqdn: string)
    requires Describes(config, s, fqdn)
    ensures DistinctEndpoints(config.advertisedListeners) <==> !s.HasKerberosEnabled()
  {
    var a := config.advertisedListeners;
    assert a[0] == AdvertisedListener(s, fqdn, ClientListenerName(s));
    assert s.HasKerberosEnabled() ==> a[2] == AdvertisedListener(s, fqdn, Bootstrap);
  }

  // ---- Rendering ----

  function NameText(n: ListenerName): string {
    match n
    case Client => "CLIENT"
    case ClientAuth => "CLIENT_AUTH"
    case Internal => "INTERNAL"
    case Bootstrap => "BOOTSTRAP"
  }

  function ProtocolText(p: Protocol): string {
    match p
    case Plaintext => "PLAINTEXT"
    case Ssl => "SSL"
    case SaslSsl => "SASL_SSL"
  }

  function PortText(p: ListenerPort): string {
    match p
    case Number(port) => Decimal(port)
    case Command(text) => text
  }

  function ListenerText(l: KafkaListener): string {
    NameText(l.name) + "://" + l.host + ":" + PortText(l.port)
  }

  function ListenerTexts(listeners: seq<KafkaListener>): seq<string> {
    if listeners == [] then [] else [ListenerText(listeners[0])] + ListenerTexts(listeners[1..])
  }

  // The value of `listeners` and of `advertised.listeners`.
  function Rendered(listeners: seq<KafkaListener>): string {
    Join(ListenerTexts(listeners), ",")
  }

  // `BTreeMap` order: the order of the variants.
  const NAMES_IN_ORDER := [Client, ClientAuth, Internal, Bootstrap]

  function ProtocolTexts(m: map<ListenerName, Protocol>, names: seq<ListenerName>): seq<string> {
    if names == [] then []
    else (if names[0] in m then [NameText(names[0]) + ":" + ProtocolText(m[names[0]])] else [])
         + ProtocolTexts(m, names[1..])
  }

  // The value of `listener.security.protocol.map`.
  function RenderedProtocolMap(m: map<ListenerName, Protocol>): string {
    Join(ProtocolTexts(m, NAMES_IN_ORDER), ",")
  }

  // ---- Reading the rendered values back ----

  // Name, host and port of one entry: up to the first colon, and after the last.
  function ParseListener(text: string): Option<(string, string, string)> {
    var first := IndexOf(text, ':');
    match LastIndexOf(text, ':')
    case None => None
    case Some(last) => if first + 3 <= last then Some((text[..first], text[first + 3..last], text[last + 1..])) else None
  }

  lemma NameTextPlain(n: ListenerName)
    ensures ':' !in NameText(n) && ',' !in NameText(n)
  {
  }

  lemma NameTextInjective(a: ListenerName, b: ListenerName)
    requires NameText(a) == NameText(b)
    ensures a == b
  {
    assert NameText(a)[0] == NameText(b)[0];
    assert |NameText(a)| == |NameText(b)|;
  }

  lemma ListenerDecodes(l: KafkaListener)
    requires ':' !in PortText(l.port)
    ensures ParseListener(ListenerText(l)) == Some((NameText(l.name), l.host, PortText(l.port)))
  {
    var name, port := NameText(l.name), PortText(l.port);
    var text := ListenerText(l);
    NameTextPlain(l.name);
    assert text == name + [':'] + ("//" + l.host + ":" + port);
    IndexAfter(name, ':', "//" + l.host + ":" + port);
    var front := name + "://" + l.host;
    assert text == front + [':'] + port;
    LastIndexBefore(front, ':', port);
    assert text[..|name|] == name;
    assert text[|name| + 3..|front|] == l.host;
    assert text[|front| + 1..] == port;
  }

  lemma {:induction false} TextsByIndex(listeners: seq<KafkaListener>)
    ensures |ListenerTexts(listeners)| == |listeners|
    ensures forall i | 0 <= i < |listeners| :: ListenerTexts(listeners)[i] == ListenerText(listeners[i])
  {
    if listeners != [] { TextsByIndex(listeners[1..]); }
  }

  ghost predicate PlainEntry(l: KafkaListener) {
    ',' !in l.host && ',' !in PortText(l.port) && ':' !in PortText(l.port)
  }

  // A listener as clients read it.
  function Entry(l: KafkaListener): (string, string, string) {
    (NameText(l.name), l.host, PortText(l.port))
  }

  // That splitting at commas gives exactly these listeners, in order.
  ghost predicate ReadsAs(text: string, listeners: seq<KafkaListener>) {
    var texts := Split(text, ',');
    && |texts| == |listeners|
    && forall i | 0 <= i < |texts| :: ParseListener(texts[i]) == Some(Entry(listeners[i]))
  }

  // Splitting at commas recovers every listener, in order, whatever their number.
  lemma RenderedListenersDecode(listeners: seq<KafkaListener>)
    requires listeners != [] && forall i | 0 <= i < |listeners| :: PlainEntry(listeners[i])
    ensures ReadsAs(Rendered(listeners), listeners)
  {
    TextsByIndex(listeners);
    var texts := ListenerTexts(listeners);
    forall i | 0 <= i < |listeners|
      ensures ',' !in texts[i]
      ensures ParseListener(texts[i]) == Some(Entry(listeners[i]))
    {
      NameTextPlain(listeners[i].name);
      assert PlainEntry(listeners[i]);
      ListenerDecodes(listeners[i]);
      assert texts[i] == ListenerText(listeners[i]);
    }
    SplitJoined(texts, ',');
  }

  function BoundListeners(s: KafkaTlsSecurity): seq<KafkaListener> {
    var names := ExpectedNames(s);
    seq(|names|, i requires 0 <= i < |names| => BoundListener(s, names[i]))
  }

  function AdvertisedListeners(s: KafkaTlsSecurity, fqdn: string): seq<KafkaListener> {
    var names := ExpectedNames(s);
    seq(|names|, i requires 0 <= i < |names| => AdvertisedListener(s, fqdn, names[i]))
  }

  // Both rendered lists of the configuration that `get_kafka_listener_config` returns are
  // read back as the listeners that are expected.
  lemma ConfigDecodes(config: KafkaListenerConfig, s: KafkaTlsSecurity, fqdn: string)
    requires Describes(config, s, fqdn) && ',' !in fqdn
    ensures ReadsAs(Rendered(config.listeners), BoundListeners(s))
    ensures ReadsAs(Rendered(config.advertisedListeners), AdvertisedListeners(s, fqdn))
  {
    var names := ExpectedNames(s);
    var bound, advertised := BoundListeners(s), AdvertisedListeners(s, fqdn);
    assert config.listeners == bound && config.advertisedListeners == advertised;
    forall i | 0 <= i < |names|
      ensures PlainEntry(bound[i]) && PlainEntry(advertised[i])
    {
      EntriesPlain(s, fqdn, names[i]);
    }
    RenderedListenersDecode(bound);
    RenderedListenersDecode(advertised);
  }

  // The names that are read back are pairwise different.
  lemma ReadNamesDistinct(s: KafkaTlsSecurity)
    ensures var names := ExpectedNames(s);
            forall i, j | 0 <= i < j < |names| :: NameText(names[i]) != NameText(names[j])
  {
    var names := ExpectedNames(s);
    forall i, j | 0 <= i < j < |names|
      ensures NameText(names[i]) != NameText(names[j])
    {
      if NameText(names[i]) == NameText(names[j]) { NameTextInjective(names[i], names[j]); }
    }
  }

  lemma EntriesPlain(s: KafkaTlsSecurity, fqdn: string, n: ListenerName)
    requires ',' !in fqdn
    ensures PlainEntry(BoundListener(s, n)) && PlainEntry(AdvertisedListener(s, fqdn, n))
  {
    CommandsPlain(s);
  }

  lemma CommandsPlain(s: KafkaTlsSecurity)
    ensures ',' !in NodeAddressCmd(STACKABLE_LISTENER_BROKER_DIR)
    ensures ',' !in NodePortCmd(STACKABLE_LISTENER_BROKER_DIR, s.ClientPortName())
    ensures ':' !in NodePortCmd(STACKABLE_LISTENER_BROKER_DIR, s.ClientPortName())
  {
    PlainLiterals();
  }

  lemma PlainLiterals()
    ensures ',' !in STACKABLE_LISTENER_BROKER_DIR && ':' !in STACKABLE_LISTENER_BROKER_DIR
    ensures ',' !in "/default-address/address)" && ',' !in "/default-address/ports/" && ':' !in "/default-address/ports/"
  {
  }

  lemma {:induction false} ProtocolTextMembers(m: map<ListenerName, Protocol>, names: seq<ListenerName>, e: string)
    ensures e in ProtocolTexts(m, names) <==>
            exists n :: n in names && n in m && e == NameText(n) + ":" + ProtocolText(m[n])
  {
    if names != [] {
      ProtocolTextMembers(m, names[1..], e);
      assert names == [names[0]] + names[1..];
    }
  }

  lemma NameIsInOrder(n: ListenerName)
    ensures n in NAMES_IN_ORDER
  {
    assert NAMES_IN_ORDER[0] == Client && NAMES_IN_ORDER[1] == ClientAuth;
    assert NAMES_IN_ORDER[2] == Internal && NAMES_IN_ORDER[3] == Bootstrap;
    match n {
      case Client =>
      case ClientAuth =>
      case Internal =>
      case Bootstrap =>
    }
  }

  // The rendered protocol map has an entry for each listener of the map, and no other.
  lemma RenderedProtocolMapDecodes(m: map<ListenerName, Protocol>, e: string)
    requires m != map[]
    ensures e in Split(RenderedProtocolMap(m), ',') <==>
            exists n :: n in m && e == NameText(n) + ":" + ProtocolText(m[n])
  {
    var texts := ProtocolTexts(m, NAMES_IN_ORDER);
    forall n: ListenerName
      ensures n in NAMES_IN_ORDER
    {
      NameIsInOrder(n);
    }
    ProtocolTextMembers(m, NAMES_IN_ORDER, e);
    var first :| first in m;
    ProtocolTextMembers(m, NAMES_IN_ORDER, NameText(first) + ":" + ProtocolText(m[first]));
    forall i | 0 <= i < |texts|
      ensures ',' !in texts[i]
    {
      ProtocolTextMembers(m, NAMES_IN_ORDER, texts[i]);
      var n :| n in m && texts[i] == NameText(n) + ":" + ProtocolText(m[n]);
      NameTextPlain(n);
      ProtocolTextPlain(m[n]);
    }
    SplitJoined(texts, ',');
  }

  lemma ProtocolTextPlain(p: Protocol)
    ensures ',' !in ProtocolText(p)
  {
  }
}
