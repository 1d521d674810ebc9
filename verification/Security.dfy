/**
 Authentication classes and TLS settings (rust/crd/src/authentication.rs, security.rs): what
 is accepted, and the ports, secret classes and settings derived from it.
 */
module Security {
  import opened Common

  datatype Provider =
    | Tls(clientCertSecretClass: Option<string>)
    | Kerberos(kerberosSecretClass: string)
    | Static
    | Ldap
    | Oidc

  datatype AuthenticationClass = AuthenticationClass(name: string, provider: Provider)

  datatype AuthenticationError =
    | MultipleAuthenticationClassesProvided
    | AuthenticationProviderNotSupported(authenticationClass: string)

  predicate Supported(c: AuthenticationClass) {
    c.provider.Tls? || c.provider.Kerberos?
  }

  // The outcome of `validate`.
  function Validation(classes: seq<AuthenticationClass>): Result<(), AuthenticationError> {
    if |classes| > 1 then Err(MultipleAuthenticationClassesProvided)
    else if |classes| == 1 && !Supported(classes[0]) then Err(AuthenticationProviderNotSupported(classes[0].name))
    else Ok(())
  }

  // `ResolvedAuthenticationClasses::validate`
  method Validate(classes: seq<AuthenticationClass>) returns (r: Result<(), AuthenticationError>)
    ensures r == Validation(classes)
    ensures r.Ok? <==>
            |classes| <= 1 && forall i | 0 <= i < |classes| :: classes[i].provider.Tls? || classes[i].provider.Kerberos?
    ensures |classes| > 1 <==> r == Err(MultipleAuthenticationClassesProvided)
    ensures r.Err? && |classes| <= 1 ==> r == Err(AuthenticationProviderNotSupported(classes[0].name))
  {
    if |classes| > 1 {
      return Err(MultipleAuthenticationClassesProvided);
    }
    for i := 0 to |classes|
      invariant forall j | 0 <= j < i :: Supported(classes[j])
    {
      match classes[i].provider {
        case Tls(_) =>
        case Kerberos(_) =>
        case Static | Ldap | Oidc =>
          return Err(AuthenticationProviderNotSupported(classes[i].name));
      }
    }
    r := Ok(());
  }

  // `get_tls_authentication_class`: the first one.
  function FirstTls(classes: seq<AuthenticationClass>): Option<AuthenticationClass> {
    if classes == [] then None
    else if classes[0].provider.Tls? then Some(classes[0])
    else FirstTls(classes[1..])
  }

  // `get_kerberos_authentication_class`: the first one.
  function FirstKerberos(classes: seq<AuthenticationClass>): Option<AuthenticationClass> {
    if classes == [] then None
    else if classes[0].provider.Kerberos? then Some(classes[0])
    else FirstKerberos(classes[1..])
  }

  // `i` is the first position of a class with this kind of provider.
  ghost predicate FirstAt(classes: seq<AuthenticationClass>, i: nat, has: AuthenticationClass -> bool) {
    i < |classes| && has(classes[i]) && forall j | 0 <= j < i :: !has(classes[j])
  }

  predicate IsTlsClass(c: AuthenticationClass) {
    c.provider.Tls?
  }

  predicate IsKerberosClass(c: AuthenticationClass) {
    c.provider.Kerberos?
  }

  // The lookups find the first class of their provider, and nothing if and only if there is none.
  lemma {:induction false} FirstExact(classes: seq<AuthenticationClass>)
    ensures FirstTls(classes).Some? <==> exists c :: c in classes && IsTlsClass(c)
    ensures FirstTls(classes).Some? ==> exists i: nat :: FirstAt(classes, i, IsTlsClass) && FirstTls(classes).value == classes[i]
    ensures FirstKerberos(classes).Some? <==> exists c :: c in classes && IsKerberosClass(c)
    ensures FirstKerberos(classes).Some? ==>
              exists i: nat :: FirstAt(classes, i, IsKerberosClass) && FirstKerberos(classes).value == classes[i]
  {
    if classes != [] {
      var first, rest := classes[0], classes[1..];
      FirstExact(rest);
      assert classes == [first] + rest && first in classes;
      if IsTlsClass(first) {
        assert FirstAt(classes, 0, IsTlsClass);
      } else if FirstTls(rest).Some? {
        var i: nat :| FirstAt(rest, i, IsTlsClass) && FirstTls(rest).value == rest[i];
        assert FirstAt(classes, i + 1, IsTlsClass);
      }
      if IsKerberosClass(first) {
        assert FirstAt(classes, 0, IsKerberosClass);
      } else if FirstKerberos(rest).Some? {
        var i: nat :| FirstAt(rest, i, IsKerberosClass) && FirstKerberos(rest).value == rest[i];
        assert FirstAt(classes, i + 1, IsKerberosClass);
      }
    }
  }

  type Port = p: nat | p <= 65535

  const CLIENT_PORT_NAME := "kafka"
  const CLIENT_PORT: Port := 9092
  const SECURE_CLIENT_PORT_NAME := "kafka-tls"
  const SECURE_CLIENT_PORT: Port := 9093
  const BOOTSTRAP_PORT_NAME := "bootstrap"
  const BOOTSTRAP_PORT: Port := 9094
  const SECURE_BOOTSTRAP_PORT: Port := 9095
  const INTERNAL_PORT: Port := 19092
  const SECURE_INTERNAL_PORT: Port := 19093
  const METRICS_PORT_NAME := "metrics"
  const METRICS_PORT: Port := 9606

  datatype KafkaTlsSecurity = KafkaTlsSecurity(
    classes: seq<AuthenticationClass>,
    internalSecretClass: string,
    serverSecretClass: Option<string>)
  {
    predicate HasTlsAuthentication() {
      FirstTls(classes).Some?
    }

    function KerberosSecretClass(): Option<string> {
      match FirstKerberos(classes)
      case Some(c) => if c.provider.Kerberos? then Some(c.provider.kerberosSecretClass) else None
      case None => None
    }

    predicate HasKerberosEnabled() {
      KerberosSecretClass().Some?
    }

    predicate TlsEnabled() {
      HasTlsAuthentication() || serverSecretClass.Some?
    }

    function TlsInternalSecretClass(): Option<string> {
      if internalSecretClass != "" then Some(internalSecretClass) else None
    }

    // `get_tls_secret_class`
    function TlsSecretClass(): Option<string> {
      match FirstTls(classes)
      case Some(AuthenticationClass(_, Tls(Some(secretClass)))) => Some(secretClass)
      case _ => serverSecretClass
    }

    // `validate_authentication_methods`
    predicate ValidAuthenticationMethods() {
      HasKerberosEnabled() ==> serverSecretClass.Some?
    }

    function ClientPort(): Port {
      if TlsEnabled() then SECURE_CLIENT_PORT else CLIENT_PORT
    }

    function ClientPortName(): string {
      if TlsEnabled() then SECURE_CLIENT_PORT_NAME else CLIENT_PORT_NAME
    }

    function BootstrapPort(): Port {
      if TlsEnabled() then SECURE_BOOTSTRAP_PORT else BOOTSTRAP_PORT
    }

    function InternalPort(): Port {
      if TlsInternalSecretClass().Some? then SECURE_INTERNAL_PORT else INTERNAL_PORT
    }

    // The port name under which discovery looks for hosts.
    function DiscoveryPortName(): string {
      if HasKerberosEnabled() then BOOTSTRAP_PORT_NAME else ClientPortName()
    }

    // What a reconcile pass lets through.
    predicate Accepted() {
      Validation(classes).Ok? && ValidAuthenticationMethods()
    }
  }

  lemma EnabledIffClass(s: KafkaTlsSecurity)
    ensures s.HasKerberosEnabled() <==> exists c :: c in s.classes && c.provider.Kerberos?
    ensures s.HasTlsAuthentication() <==> exists c :: c in s.classes && c.provider.Tls?
  {
    FirstExact(s.classes);
  }

  // TLS and Kerberos authentication exclude each other only because of `validate`.
  lemma AcceptedIsExclusive(s: KafkaTlsSecurity)
    requires Validation(s.classes).Ok?
    ensures !(s.HasTlsAuthentication() && s.HasKerberosEnabled())
    ensures s.HasTlsAuthentication() || s.HasKerberosEnabled() || s.classes == []
  {
    EnabledIffClass(s);
    if s.classes != [] { assert s.classes[0] in s.classes; }
  }

  // ---- Exposed ports ----

  datatype NamedPort = NamedPort(name: string, port: Port)

  function ExposedPorts(s: KafkaTlsSecurity): seq<NamedPort> {
    [NamedPort(METRICS_PORT_NAME, METRICS_PORT), NamedPort(s.ClientPortName(), s.ClientPort())]
    + if s.HasKerberosEnabled() then [NamedPort(BOOTSTRAP_PORT_NAME, s.BootstrapPort())] else []
  }

  // The port name that discovery looks up is there, names and numbers determine each other,
  // and the client port is under its name.
  ghost predicate ServesDiscovery(ports: seq<NamedPort>, s: KafkaTlsSecurity) {
    && (exists p :: p in ports && p.name == s.DiscoveryPortName()
                    && p.port == if s.HasKerberosEnabled() then s.BootstrapPort() else s.ClientPort())
    && (forall p, q | p in ports && q in ports :: (p.name == q.name <==> p.port == q.port))
    && (exists p :: p in ports && p.name == s.ClientPortName() && p.port == s.ClientPort())
    && (s.HasKerberosEnabled() <==> exists p :: p in ports && p.name == BOOTSTRAP_PORT_NAME)
  }

  // `listener_ports`
  method ListenerPorts(s: KafkaTlsSecurity) returns (ports: seq<NamedPort>)
    ensures ports == ExposedPorts(s) && ServesDiscovery(ports, s)
  {
    DiscoveryPortIsExposed(s);
    ports := [NamedPort(METRICS_PORT_NAME, METRICS_PORT), NamedPort(s.ClientPortName(), s.ClientPort())];
    if s.HasKerberosEnabled() {
      ports := ports + [NamedPort(BOOTSTRAP_PORT_NAME, s.BootstrapPort())];
    }
  }

  // `container_ports`
  method ContainerPorts(s: KafkaTlsSecurity) returns (ports: seq<NamedPort>)
    ensures ports == ExposedPorts(s) && ServesDiscovery(ports, s)
  {
    DiscoveryPortIsExposed(s);
    ports := [NamedPort(METRICS_PORT_NAME, METRICS_PORT), NamedPort(s.ClientPortName(), s.ClientPort())];
    if s.HasKerberosEnabled() {
      ports := ports + [NamedPort(BOOTSTRAP_PORT_NAME, s.BootstrapPort())];
    }
  }

  // The port name discovery looks up is exposed, whatever the configuration, under one number.
  lemma DiscoveryPortIsExposed(s: KafkaTlsSecurity)
    ensures ServesDiscovery(ExposedPorts(s), s)
  {
    var ports := ExposedPorts(s);
    assert ports[1] in ports;
    assert s.HasKerberosEnabled() ==> ports[2] in ports;
    assert METRICS_PORT_NAME[0] == 'm' && BOOTSTRAP_PORT_NAME[0] == 'b';
    assert s.ClientPortName()[0] == 'k';
  }
}
