/** The canonical node record, its identity, and the guarded updates. */
module Model {
  import opened Common
  import opened Numbers
  import opened Text

  datatype Protocol = VLESS | VMESS | SHADOWSOCKS | TROJAN | HYSTERIA2 | SOCKS5 | OTHER

  datatype Transport = TCP | WS | GRPC | XHTTP | HTTP2 | QUIC | UNKNOWN_TRANSPORT

  datatype Security = TLS | REALITY | NO_SECURITY | UNKNOWN_SECURITY

  datatype LatencyKind = TCP_CONNECT | PROTOCOL_HANDSHAKE | MEASURED

  datatype LatencySample = LatencySample(valueMs: Option<Float>, kind: LatencyKind, attempts: nat, measuredAt: Float,
                                         provenance: string)

  datatype Endpoint = Endpoint(host: string, port: int, resolvedIp: Option<string>) {
    /** The resolved address if there is a nonempty one, else the host. */
    function IdentityHost(): string {
      if resolvedIp.Some? && resolvedIp.value != "" then resolvedIp.value else host
    }
  }

  /** Library facts about names: `str.strip`/`lower`, percent-decoding, and the canonical text of an IPv6 literal. */
  datatype NameLib = NameLib(space: char -> bool, lower: string -> string, unquote: string -> string,
                             canonicalIp: string -> Option<string>)

  /** The host an endpoint keeps; the constructor applies this again on every `replace`. */
  function CleanedHost(lib: NameLib, host: string): string {
    var h := lib.unquote(lib.lower(Strip(host, lib.space)));
    if !Has(h, ':') then h
    else
      match lib.canonicalIp(h)
      case None => h
      case Some(c) => lib.lower(c)
  }

  /** `Endpoint(...)`; `None` when the constructor raises. */
  function MakeEndpoint(lib: NameLib, host: string, port: int, resolvedIp: Option<string>): Option<Endpoint> {
    if Strip(host, lib.space) == "" || !(0 < port < 65536) then None
    else
      Some(Endpoint(CleanedHost(lib, host), port,
                    match resolvedIp case None => None case Some(ip) => Some(Strip(ip, lib.space))))
  }

  /** Texts of a place, as long as the constructor lets them be. */
  type PlaceText = s: string | |s| <= 128
  type CodeText = s: string | |s| <= 2
  type FlagText = s: string | |s| <= 8

  datatype GeoInfo = GeoInfo(country: PlaceText, city: PlaceText, countryCode: CodeText, flag: FlagText)

  datatype Node = Node(
    protocol: Protocol,
    endpoint: Endpoint,
    rawUrl: string,
    uuid: string,
    password: string,
    secret: string,
    sni: string,
    hostHeader: string,
    transport: Transport,
    security: Security,
    path: string,
    serviceName: string,
    alpn: string,
    fingerprint: string,
    allowInsecure: bool,
    flow: string,
    protocolFields: seq<(string, string)>,
    tcpConnect: Option<LatencySample>,
    protocolHandshake: Option<LatencySample>,
    measuredLatency: Option<LatencySample>,
    jitterMs: Option<Float>,
    score: Float,
    geo: Option<GeoInfo>,
    outputName: string)
  {
    /** `with_tcp_connect`: only a TCP_CONNECT sample may be attached. */
    function WithTcpConnect(s: LatencySample): Result<Node, ()> {
      if s.kind != TCP_CONNECT then Err(()) else Ok(this.(tcpConnect := Some(s)))
    }

    /** `with_protocol_handshake`: only a PROTOCOL_HANDSHAKE sample may be attached. */
    function WithHandshake(s: LatencySample): Result<Node, ()> {
      if s.kind != PROTOCOL_HANDSHAKE then Err(()) else Ok(this.(protocolHandshake := Some(s)))
    }

    /** `with_measured`: only a MEASURED sample may be attached. */
    function WithMeasured(s: LatencySample): Result<Node, ()> {
      if s.kind != MEASURED then Err(()) else Ok(this.(measuredLatency := Some(s)))
    }

    /** `with_jitter`: finite, not negative, and only beside a measured sample. */
    function WithJitter(j: Float): Result<Node, ()> {
      if measuredLatency.None? || !j.Finite() || j.r < 0.0 then Err(()) else Ok(this.(jitterMs := Some(j)))
    }
  }

  /** A node as the constructor leaves it when only these three fields are given. */
  function FreshNode(protocol: Protocol, endpoint: Endpoint, rawUrl: string): Node {
    Node(protocol, endpoint, rawUrl, "", "", "", "", "", UNKNOWN_TRANSPORT, UNKNOWN_SECURITY, "", "", "", "", false, "",
         [], None, None, None, None, Fin(0.0), None, "")
  }

  /** No measurement has been made of this node. */
  predicate Unmeasured(n: Node) {
    n.measuredLatency.None? && n.jitterMs.None?
  }

  datatype ConfigKey = ConfigKey(
    protocol: Protocol,
    host: string,
    port: int,
    uuid: string,
    password: string,
    secret: string,
    sni: string,
    hostHeader: string,
    transport: Transport,
    security: Security,
    path: string,
    serviceName: string,
    alpn: string,
    fingerprint: string,
    allowInsecure: bool,
    flow: string,
    protocolFields: seq<(string, string)>)

  /** Configuration identity: everything that makes a configuration, nothing measured or cosmetic. */
  function KeyOf(n: Node): ConfigKey {
    ConfigKey(n.protocol, n.endpoint.IdentityHost(), n.endpoint.port, n.uuid, n.password, n.secret, n.sni, n.hostHeader,
              n.transport, n.security, n.path, n.serviceName, n.alpn, n.fingerprint, n.allowInsecure, n.flow,
              n.protocolFields)
  }

  /** Two configurations are one exactly when these seventeen things agree; the pinned address stands for the host. */
  lemma IdentityExactly(m: Node, n: Node)
    ensures KeyOf(m) == KeyOf(n) <==>
            && (if m.endpoint.resolvedIp.Some? && m.endpoint.resolvedIp.value != "" then m.endpoint.resolvedIp.value
                else m.endpoint.host)
               == (if n.endpoint.resolvedIp.Some? && n.endpoint.resolvedIp.value != "" then n.endpoint.resolvedIp.value
                   else n.endpoint.host)
            && m.protocol == n.protocol && m.endpoint.port == n.endpoint.port
            && m.uuid == n.uuid && m.password == n.password && m.secret == n.secret
            && m.sni == n.sni && m.hostHeader == n.hostHeader && m.transport == n.transport && m.security == n.security
            && m.path == n.path && m.serviceName == n.serviceName && m.alpn == n.alpn
            && m.fingerprint == n.fingerprint && m.allowInsecure == n.allowInsecure && m.flow == n.flow
            && m.protocolFields == n.protocolFields
  {
  }

  /** A sample may be attached only where its kind belongs, and changes nothing else. */
  lemma GuardsExactly(n: Node, s: LatencySample, j: Float)
    ensures n.WithTcpConnect(s) == if s.kind == TCP_CONNECT then Ok(n.(tcpConnect := Some(s))) else Err(())
    ensures n.WithHandshake(s) == if s.kind == PROTOCOL_HANDSHAKE then Ok(n.(protocolHandshake := Some(s))) else Err(())
    ensures n.WithMeasured(s) == if s.kind == MEASURED then Ok(n.(measuredLatency := Some(s))) else Err(())
    ensures n.WithJitter(j).Ok? <==> n.measuredLatency.Some? && j.Fin? && j.r >= 0.0
    ensures n.WithJitter(j).Ok? ==> n.WithJitter(j).value == n.(jitterMs := Some(j))
  {
  }

  /** An endpoint exists exactly for a host that is not blank and a port from 1 to 65535. */
  lemma EndpointsExactly(lib: NameLib, host: string, port: int, ip: Option<string>)
    ensures MakeEndpoint(lib, host, port, ip).Some? <==> Strip(host, lib.space) != "" && 1 <= port <= 65535
    ensures MakeEndpoint(lib, host, port, ip).Some? ==>
              var e, h := MakeEndpoint(lib, host, port, ip).value, lib.unquote(lib.lower(Strip(host, lib.space)));
              && e.port == port
              && e.host == (if ':' in h && lib.canonicalIp(h).Some? then lib.lower(lib.canonicalIp(h).value) else h)
              && (ip.None? ==> e.resolvedIp == None) && (ip.Some? ==> e.resolvedIp == Some(Strip(ip.value, lib.space)))
  {
    hide Strip;
  }
}
