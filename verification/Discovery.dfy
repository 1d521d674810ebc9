/**
 The discovery ConfigMaps (rust/operator-binary/src/discovery.rs): hosts and ports of the
 bootstrap listeners, published as one comma-separated string.
 */
module Discovery {
  import opened Common
  import opened Text

  const MAX_PORT := 65535

  // The port map of an ingress address holds 32-bit signed integers.
  type Int32 = p: int | -0x8000_0000 <= p < 0x8000_0000

  datatype Ingress = Ingress(address: string, ports: map<string, Int32>)

  // The status of a Listener: absent, or with addresses that may themselves be absent.
  datatype Status = Status(ingressAddresses: Option<seq<Ingress>>)

  datatype HostError = NoServicePort(portName: string) | InvalidNodePort

  type Hosts = seq<(string, nat)>

  function AddressesOf(status: Option<Status>): seq<Ingress> {
    match status
    case Some(Status(Some(addresses))) => addresses
    case _ => []
  }

  // `flat_map` and `flatten`
  function Addresses(listeners: seq<Option<Status>>): seq<Ingress> {
    if listeners == [] then [] else AddressesOf(listeners[0]) + Addresses(listeners[1..])
  }

  function HostOf(addr: Ingress, portName: string): Result<(string, nat), HostError> {
    if portName !in addr.ports then Err(NoServicePort(portName))
    else if !(0 <= addr.ports[portName] <= MAX_PORT) then Err(InvalidNodePort)
    else Ok((addr.address, addr.ports[portName]))
  }

  // `collect::<Result<Vec<_>, _>>`: the first error wins.
  function Collect(addresses: seq<Ingress>, portName: string): Result<Hosts, HostError> {
    if addresses == [] then Ok([])
    else match HostOf(addresses[0], portName)
         case Err(e) => Err(e)
         case Ok(host) =>
           match Collect(addresses[1..], portName)
           case Err(e) => Err(e)
           case Ok(hosts) => Ok([host] + hosts)
  }

  function ListenerHosts(listeners: seq<Option<Status>>, portName: string): Result<Hosts, HostError> {
    Collect(Addresses(listeners), portName)
  }

  function RenderHost(host: (string, nat)): string {
    host.0 + ":" + Decimal(host.1)
  }

  function RenderHosts(hosts: Hosts): seq<string> {
    if hosts == [] then [] else [RenderHost(hosts[0])] + RenderHosts(hosts[1..])
  }

  // The value of the key `KAFKA`.
  function BootstrapServers(hosts: Hosts): string {
    Join(RenderHosts(hosts), ",")
  }

  // ---- What `listener_hosts` finds ----

  predicate HasPort(addr: Ingress, portName: string) {
    portName in addr.ports && 0 <= addr.ports[portName] <= 65535
  }

  // A missing port and one out of range are told apart.
  lemma HostOfIff(addr: Ingress, portName: string)
    ensures HostOf(addr, portName).Ok? <==> HasPort(addr, portName)
    ensures portName !in addr.ports <==> HostOf(addr, portName) == Err(NoServicePort(portName))
    ensures portName in addr.ports && !HasPort(addr, portName) <==> HostOf(addr, portName) == Err(InvalidNodePort)
  {
  }

  lemma {:induction false} CollectExact(addresses: seq<Ingress>, portName: string)
    ensures Collect(addresses, portName).Ok? <==> forall i | 0 <= i < |addresses| :: HasPort(addresses[i], portName)
    ensures Collect(addresses, portName).Ok? ==>
              var hosts := Collect(addresses, portName).value;
              && |hosts| == |addresses|
              && forall i | 0 <= i < |addresses| ::
                   hosts[i].0 == addresses[i].address
                   && HasPort(addresses[i], portName) && hosts[i].1 == addresses[i].ports[portName]
    ensures Collect(addresses, portName).Err? ==>
              exists i :: 0 <= i < |addresses| && (forall j | 0 <= j < i :: HasPort(addresses[j], portName))
                          && HostOf(addresses[i], portName) == Err(Collect(addresses, portName).error)
  {
    if addresses != [] {
      var rest := addresses[1..];
      CollectExact(rest, portName);
      assert forall i | 0 <= i < |rest| :: rest[i] == addresses[i + 1];
      assert forall i | 0 < i < |addresses| :: addresses[i] == rest[i - 1];
      if HasPort(addresses[0], portName) && Collect(rest, portName).Err? {
        var i :| 0 <= i < |rest| && (forall j | 0 <= j < i :: HasPort(rest[j], portName))
                 && HostOf(rest[i], portName) == Err(Collect(rest, portName).error);
        assert forall j | 0 <= j < i + 1 :: HasPort(addresses[j], portName);
        assert HostOf(addresses[i + 1], portName) == Err(Collect(addresses, portName).error);
      }
    }
  }

  // It succeeds exactly when every ingress address has the port in range, and then lists the
  // addresses in flattened order; otherwise it reports the first address that has not.
  lemma ListenerHostsExact(listeners: seq<Option<Status>>, portName: string)
    ensures var addresses := Addresses(listeners);
            var r := ListenerHosts(listeners, portName);
            && (r.Ok? <==> forall i | 0 <= i < |addresses| :: HasPort(addresses[i], portName))
            && (r.Ok? ==>
                  && |r.value| == |addresses|
                  && forall i | 0 <= i < |addresses| ::
                       r.value[i].0 == addresses[i].address
                       && HasPort(addresses[i], portName) && r.value[i].1 == addresses[i].ports[portName])
            && (r.Err? ==>
                  exists i :: 0 <= i < |addresses| && (forall j | 0 <= j < i :: HasPort(addresses[j], portName))
                              && HostOf(addresses[i], portName) == Err(r.error))
  {
    CollectExact(Addresses(listeners), portName);
  }

  lemma {:induction false} AddressesAppend(a: seq<Option<Status>>, b: seq<Option<Status>>)
    ensures Addresses(a + b) == Addresses(a) + Addresses(b)
  {
    if a == [] {
      assert a + b == b;
    } else {
      assert (a + b)[1..] == a[1..] + b;
      AddressesAppend(a[1..], b);
    }
  }

  // ---- What a client reads back ----

  // Host and port of one server: the port is what follows the last colon.
  function ParseServer(server: string): Option<(string, nat)> {
    match LastIndexOf(server, ':')
    case None => None
    case Some(i) =>
      match ParseDecimal(server[i + 1..])
      case None => None
      case Some(port) => Some((server[..i], port))
  }

  function ParseServers(servers: seq<string>): Option<Hosts> {
    if servers == [] then Some([])
    else match ParseServer(servers[0])
         case None => None
         case Some(host) =>
           match ParseServers(servers[1..])
           case None => None
           case Some(hosts) => Some([host] + hosts)
  }

  function ParseBootstrapServers(published: string): Option<Hosts> {
    if published == "" then Some([]) else ParseServers(Split(published, ','))
  }

  lemma ParseRendered(host: (string, nat))
    ensures ParseServer(RenderHost(host)) == Some(host)
  {
    var port := Decimal(host.1);
    assert ':' !in port;
    assert RenderHost(host) == host.0 + [':'] + port;
    LastIndexBefore(host.0, ':', port);
    ParsePrinted(host.1);
    assert RenderHost(host)[|host.0| + 1..] == port;
    assert RenderHost(host)[..|host.0|] == host.0;
  }

  lemma {:induction false} ParseAllRendered(hosts: Hosts)
    ensures ParseServers(RenderHosts(hosts)) == Some(hosts)
  {
    if hosts != [] {
      ParseRendered(hosts[0]);
      ParseAllRendered(hosts[1..]);
      assert hosts == [hosts[0]] + hosts[1..];
      assert RenderHosts(hosts)[1..] == RenderHosts(hosts[1..]);
    }
  }

  lemma {:induction false} RenderedAreCommaFree(hosts: Hosts)
    requires CommaFree(hosts)
    ensures forall i | 0 <= i < |RenderHosts(hosts)| :: ',' !in RenderHosts(hosts)[i]
  {
    if hosts != [] {
      RenderedAreCommaFree(hosts[1..]);
      assert ',' !in Decimal(hosts[0].1);
      assert ',' !in RenderHost(hosts[0]);
    }
  }

  lemma PublishedNotEmpty(hosts: Hosts)
    requires hosts != []
    ensures BootstrapServers(hosts) != ""
  {
    var servers := RenderHosts(hosts);
    assert servers[0] == RenderHost(hosts[0]) && |RenderHost(hosts[0])| > 0;
    assert |Join(servers, ",")| >= |servers[0]|;
  }

  predicate CommaFree(hosts: Hosts) {
    forall i | 0 <= i < |hosts| :: ',' !in hosts[i].0
  }

  lemma {:induction false} CommasOfRendered(hosts: Hosts)
    requires !CommaFree(hosts)
    ensures CountAll(RenderHosts(hosts), ',') > 0
  {
    var rendered := RenderHosts(hosts);
    CountZero(RenderHost(hosts[0]), ',');
    if ',' in hosts[0].0 {
      assert ',' in RenderHost(hosts[0]);
    } else {
      assert !CommaFree(hosts[1..]) by {
        var i :| 0 <= i < |hosts| && ',' in hosts[i].0;
        assert hosts[1..][i - 1] == hosts[i];
      }
      CommasOfRendered(hosts[1..]);
    }
    assert rendered[1..] == RenderHosts(hosts[1..]);
  }

  lemma {:induction false} ParsedLength(servers: seq<string>)
    ensures ParseServers(servers).Some? ==> |ParseServers(servers).value| == |servers|
  {
    if servers != [] { ParsedLength(servers[1..]); }
  }

  lemma {:induction false} RenderedLength(hosts: Hosts)
    ensures |RenderHosts(hosts)| == |hosts|
  {
    if hosts != [] { RenderedLength(hosts[1..]); }
  }

  // The published string decodes to exactly the hosts and ports it was made from, IPv6
  // addresses included, if and only if no host contains a comma.
  lemma PublishedDecodesIff(hosts: Hosts)
    ensures ParseBootstrapServers(BootstrapServers(hosts)) == Some(hosts) <==> CommaFree(hosts)
  {
    var servers := RenderHosts(hosts);
    if hosts != [] {
      RenderedLength(hosts);
      PublishedNotEmpty(hosts);
      if CommaFree(hosts) {
        RenderedAreCommaFree(hosts);
        SplitJoined(servers, ',');
        ParseAllRendered(hosts);
      } else {
        CommasOfRendered(hosts);
        CountJoined(servers, ',');
        SplitCount(BootstrapServers(hosts), ',');
        ParsedLength(Split(BootstrapServers(hosts), ','));
      }
    }
  }
}
