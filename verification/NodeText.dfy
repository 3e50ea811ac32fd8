/** The canonical texts of a node: its identity and its full content, as the ranking sees them. */
module NodeText {
  import opened Common
  import opened Numbers
  import opened Model
  import opened Text
  import opened Canonical

  function ProtocolMember(p: Protocol): string {
    match p
    case VLESS => "VLESS" case VMESS => "VMESS" case SHADOWSOCKS => "SHADOWSOCKS" case TROJAN => "TROJAN"
    case HYSTERIA2 => "HYSTERIA2" case SOCKS5 => "SOCKS5" case OTHER => "OTHER"
  }

  function TransportMember(t: Transport): string {
    match t
    case TCP => "TCP" case WS => "WS" case GRPC => "GRPC" case XHTTP => "XHTTP"
    case HTTP2 => "HTTP2" case QUIC => "QUIC" case UNKNOWN_TRANSPORT => "UNKNOWN"
  }

  function SecurityMember(s: Security): string {
    match s
    case TLS => "TLS" case REALITY => "REALITY" case NO_SECURITY => "NONE" case UNKNOWN_SECURITY => "UNKNOWN"
  }

  function KindMember(k: LatencyKind): string {
    match k
    case TCP_CONNECT => "TCP_CONNECT" case PROTOCOL_HANDSHAKE => "PROTOCOL_HANDSHAKE" case MEASURED => "MEASURED"
  }

  function TextOrNone(s: Option<string>): Value {
    match s case None => NoneOf case Some(x) => StrOf(x)
  }

  function FloatOrNone(f: Option<Float>): Value {
    match f case None => NoneOf case Some(x) => FloatOf(x)
  }

  function EndpointValue(e: Endpoint): Value {
    RecOf("Endpoint", ENDPOINT_FIELDS, [StrOf(e.host), IntOf(e.port), TextOrNone(e.resolvedIp)])
  }

  function SampleValue(o: Option<LatencySample>): Value {
    match o
    case None => NoneOf
    case Some(s) =>
      RecOf("LatencySample", SAMPLE_FIELDS,
            [FloatOrNone(s.valueMs), EnumOf("LatencyKind", KindMember(s.kind)), IntOf(s.attempts),
             FloatOf(s.measuredAt), StrOf(s.provenance)])
  }

  function GeoValue(o: Option<GeoInfo>): Value {
    match o
    case None => NoneOf
    case Some(g) =>
      RecOf("GeoInfo", GEO_FIELDS,
            [StrOf(g.country), StrOf(g.city), StrOf(g.countryCode), StrOf(g.flag)])
  }

  function PairValues(pairs: seq<(string, string)>): (r: seq<Value>)
    ensures |r| == |pairs|
    ensures forall k | 0 <= k < |r| :: r[k] == SeqOf([StrOf(pairs[k].0), StrOf(pairs[k].1)])
  {
    if pairs == [] then [] else [SeqOf([StrOf(pairs[0].0), StrOf(pairs[0].1)])] + PairValues(pairs[1..])
  }

  function CredentialNames(): (r: seq<string>)
    ensures |r| == 6
  {
    ["protocol", "endpoint", "raw_url", "uuid", "password", "secret"]
  }

  function CarrierNames(): (r: seq<string>)
    ensures |r| == 6
  {
    ["sni", "host_header", "transport", "security", "path", "service_name"]
  }

  function ExtraNames(): (r: seq<string>)
    ensures |r| == 6
  {
    ["alpn", "fingerprint", "allow_insecure", "flow", "protocol_fields", "tcp_connect"]
  }

  function ObservationNames(): (r: seq<string>)
    ensures |r| == 6
  {
    ["protocol_handshake", "measured_latency", "jitter_ms", "score", "geo", "output_name"]
  }

  function NodeNames(): (r: seq<string>)
    ensures |r| == 24
  {
    CredentialNames() + CarrierNames() + ExtraNames() + ObservationNames()
  }

  function Credentials(n: Node): (r: seq<Value>)
    ensures |r| == 6
  {
    [EnumOf("Protocol", ProtocolMember(n.protocol)), EndpointValue(n.endpoint), StrOf(n.rawUrl), StrOf(n.uuid),
     StrOf(n.password), StrOf(n.secret)]
  }

  function Carrier(n: Node): (r: seq<Value>)
    ensures |r| == 6
  {
    [StrOf(n.sni), StrOf(n.hostHeader), EnumOf("Transport", TransportMember(n.transport)),
     EnumOf("Security", SecurityMember(n.security)), StrOf(n.path), StrOf(n.serviceName)]
  }

  function Extras(n: Node): (r: seq<Value>)
    ensures |r| == 6
  {
    [StrOf(n.alpn), StrOf(n.fingerprint), BoolOf(n.allowInsecure), StrOf(n.flow),
     SeqOf(PairValues(n.protocolFields)), SampleValue(n.tcpConnect)]
  }

  function Observations(n: Node): (r: seq<Value>)
    ensures |r| == 6
  {
    [SampleValue(n.protocolHandshake), SampleValue(n.measuredLatency), FloatOrNone(n.jitterMs), FloatOf(n.score),
     GeoValue(n.geo), StrOf(n.outputName)]
  }

  /** The values of a node in the order its fields are declared. */
  function NodeFields(n: Node): (r: seq<Value>)
    ensures |r| == 24
  {
    Credentials(n) + Carrier(n) + Extras(n) + Observations(n)
  }

  function NodeValue(n: Node): Value {
    RecOf("Node", NodeNames(), NodeFields(n))
  }

  function KeyValue(k: ConfigKey): Value {
    SeqOf([EnumOf("Protocol", ProtocolMember(k.protocol)), StrOf(k.host), IntOf(k.port), StrOf(k.uuid),
           StrOf(k.password),
           StrOf(k.secret), StrOf(k.sni), StrOf(k.hostHeader), EnumOf("Transport", TransportMember(k.transport)),
           EnumOf("Security", SecurityMember(k.security)), StrOf(k.path), StrOf(k.serviceName), StrOf(k.alpn),
           StrOf(k.fingerprint), BoolOf(k.allowInsecure), StrOf(k.flow), SeqOf(PairValues(k.protocolFields))])
  }

  /** Level 3 of the ranking order. */
  function IdentityText(repr: Float -> string, n: Node): string {
    Render(repr, KeyValue(KeyOf(n)))
  }

  /** Level 4 of the ranking order. */
  function ContentText(repr: Float -> string, n: Node): string {
    Render(repr, NodeValue(n))
  }

  // ---------------------------------------------------------------------------
  // Which nodes are told apart
  // ---------------------------------------------------------------------------

  ghost predicate PlainSample(o: Option<LatencySample>) {
    o.Some? ==>
      Plain(o.value.provenance) && Rational(o.value.measuredAt)
          && (o.value.valueMs.Some? ==> Rational(o.value.valueMs.value))
  }

  /** Numbers of the node can be written down, and no string of it contains `,`, `)`, `]` or `}`. */
  ghost predicate PlainNode(n: Node) {
    && (n.jitterMs.Some? ==> Rational(n.jitterMs.value)) && Rational(n.score)
    && Plain(n.endpoint.host) && (n.endpoint.resolvedIp.Some? ==> Plain(n.endpoint.resolvedIp.value))
    && Plain(n.rawUrl) && Plain(n.uuid) && Plain(n.password) && Plain(n.secret) && Plain(n.sni) && Plain(n.hostHeader)
    && Plain(n.path) && Plain(n.serviceName) && Plain(n.alpn) && Plain(n.fingerprint) && Plain(n.flow)
    && (forall k | 0 <= k < |n.protocolFields| :: Plain(n.protocolFields[k].0) && Plain(n.protocolFields[k].1))
    && PlainSample(n.tcpConnect) && PlainSample(n.protocolHandshake) && PlainSample(n.measuredLatency)
    && (n.geo.Some? ==>
         Plain(n.geo.value.country) && Plain(n.geo.value.city) && Plain(n.geo.value.countryCode)
         && Plain(n.geo.value.flag))
    && Plain(n.outputName)
  }

  lemma {:induction false} AllReadableFrom(vs: seq<Value>)
    requires forall k | 0 <= k < |vs| :: Readable(vs[k])
    ensures AllReadable(vs)
  {
    if vs != [] {
      AllReadableFrom(vs[1..]);
    }
  }

  lemma ReadableSeq(items: seq<Value>)
    ensures Readable(SeqOf(items)) <==> AllReadable(items)
  {
  }

  lemma ReadableRec(record: string, names: seq<string>, fields: seq<Value>)
    requires Plain(record) && Free(record, ':') && |names| == |fields| && GoodNames(names)
    ensures Readable(RecOf(record, names, fields)) <==> AllReadable(fields)
  {
  }

  lemma {:induction false} PairsReadable(pairs: seq<(string, string)>)
    requires forall k | 0 <= k < |pairs| :: Plain(pairs[k].0) && Plain(pairs[k].1)
    ensures AllReadable(PairValues(pairs))
  {
    if pairs != [] {
      AllReadableFrom([StrOf(pairs[0].0), StrOf(pairs[0].1)]);
      ReadableSeq([StrOf(pairs[0].0), StrOf(pairs[0].1)]);
      PairsReadable(pairs[1..]);
    }
  }

  const SAMPLE_FIELDS: seq<string> := ["value_ms", "kind", "attempts", "measured_at", "provenance"]
  const ENDPOINT_FIELDS: seq<string> := ["host", "port", "resolved_ip"]
  const GEO_FIELDS: seq<string> := ["country", "city", "country_code", "flag"]

  lemma SampleNames()
    ensures GoodNames(SAMPLE_FIELDS) && Plain("LatencySample") && Free("LatencySample", ':')
  {
  }

  lemma SampleReadable(o: Option<LatencySample>)
    requires PlainSample(o)
    ensures Readable(SampleValue(o))
  {
    if o.Some? {
      AllReadableFrom(SampleValue(o).fields);
      SampleNames();
      hide GoodNames, Readable, AllReadable;
      ReadableRec("LatencySample", SAMPLE_FIELDS, SampleValue(o).fields);
    }
  }

  lemma EndpointReadable(e: Endpoint)
    requires Plain(e.host) && (e.resolvedIp.Some? ==> Plain(e.resolvedIp.value))
    ensures Readable(EndpointValue(e))
  {
    EndpointNames();
    hide GoodNames, Plain, Free;
    AllReadableFrom(EndpointValue(e).fields);
    ReadableRec("Endpoint", ENDPOINT_FIELDS, EndpointValue(e).fields);
  }

  lemma EndpointNames()
    ensures GoodNames(ENDPOINT_FIELDS) && Plain("Endpoint") && Free("Endpoint", ':')
  {
  }

  lemma GeoNames()
    ensures GoodNames(GEO_FIELDS) && Plain("GeoInfo") && Free("GeoInfo", ':')
  {
  }

  lemma GeoReadable(o: Option<GeoInfo>)
    requires o.Some? ==>
               Plain(o.value.country) && Plain(o.value.city) && Plain(o.value.countryCode) && Plain(o.value.flag)
    ensures Readable(GeoValue(o))
  {
    GeoNames();
    hide GoodNames, Plain, Free;
    if o.Some? {
      AllReadableFrom(GeoValue(o).fields);
      ReadableRec("GeoInfo", GEO_FIELDS, GeoValue(o).fields);
    }
  }

  lemma {:induction false} AllReadableAppend(us: seq<Value>, vs: seq<Value>)
    requires AllReadable(us) && AllReadable(vs)
    ensures AllReadable(us + vs)
  {
    if us != [] {
      AllReadableAppend(us[1..], vs);
      assert (us + vs)[1..] == us[1..] + vs;
    } else {
      assert us + vs == vs;
    }
  }

  lemma SixReadable(a: Value, b: Value, c: Value, d: Value, e: Value, f: Value)
    requires Readable(a) && Readable(b) && Readable(c) && Readable(d) && Readable(e) && Readable(f)
    ensures AllReadable([a, b, c, d, e, f])
  {
    hide Readable;
    AllReadableFrom([a, b, c, d, e, f]);
  }

  lemma ProtocolReadable(p: Protocol)
    ensures Readable(EnumOf("Protocol", ProtocolMember(p)))
  {
    assert Plain("Protocol") && Free("Protocol", '.');
    match p
    case VLESS => assert Plain("VLESS");
    case VMESS => assert Plain("VMESS");
    case SHADOWSOCKS => assert Plain("SHADOWSOCKS");
    case TROJAN => assert Plain("TROJAN");
    case HYSTERIA2 => assert Plain("HYSTERIA2");
    case SOCKS5 => assert Plain("SOCKS5");
    case OTHER => assert Plain("OTHER");
  }

  lemma TransportReadable(t: Transport)
    ensures Readable(EnumOf("Transport", TransportMember(t)))
  {
  }

  lemma SecurityReadable(s: Security)
    ensures Readable(EnumOf("Security", SecurityMember(s)))
  {
  }

  lemma CredentialsReadable(n: Node)
    requires Plain(n.endpoint.host) && (n.endpoint.resolvedIp.Some? ==> Plain(n.endpoint.resolvedIp.value))
    requires Plain(n.rawUrl) && Plain(n.uuid) && Plain(n.password) && Plain(n.secret)
    ensures AllReadable(Credentials(n))
  {
    EndpointReadable(n.endpoint);
    ProtocolReadable(n.protocol);
    hide EndpointValue, AllReadable, ProtocolMember;
    SixReadable(EnumOf("Protocol", ProtocolMember(n.protocol)), EndpointValue(n.endpoint), StrOf(n.rawUrl),
                StrOf(n.uuid),
                StrOf(n.password), StrOf(n.secret));
  }

  lemma CarrierReadable(n: Node)
    requires Plain(n.sni) && Plain(n.hostHeader) && Plain(n.path) && Plain(n.serviceName)
    ensures AllReadable(Carrier(n))
  {
    TransportReadable(n.transport);
    SecurityReadable(n.security);
    hide TransportMember, SecurityMember, AllReadable;
    SixReadable(StrOf(n.sni), StrOf(n.hostHeader), EnumOf("Transport", TransportMember(n.transport)),
                EnumOf("Security", SecurityMember(n.security)), StrOf(n.path), StrOf(n.serviceName));
  }

  lemma ExtrasReadable(n: Node)
    requires Plain(n.alpn) && Plain(n.fingerprint) && Plain(n.flow) && PlainSample(n.tcpConnect)
    requires forall k | 0 <= k < |n.protocolFields| :: Plain(n.protocolFields[k].0) && Plain(n.protocolFields[k].1)
    ensures AllReadable(Extras(n))
  {
    PairsReadable(n.protocolFields);
    ReadableSeq(PairValues(n.protocolFields));
    SampleReadable(n.tcpConnect);
    hide SampleValue, PairValues;
    SixReadable(StrOf(n.alpn), StrOf(n.fingerprint), BoolOf(n.allowInsecure), StrOf(n.flow),
                SeqOf(PairValues(n.protocolFields)), SampleValue(n.tcpConnect));
  }

  lemma ObservationsReadable(n: Node)
    requires PlainSample(n.protocolHandshake) && PlainSample(n.measuredLatency) && Plain(n.outputName)
    requires (n.jitterMs.Some? ==> Rational(n.jitterMs.value)) && Rational(n.score)
    requires n.geo.Some? ==>
               Plain(n.geo.value.country) && Plain(n.geo.value.city) && Plain(n.geo.value.countryCode)
               && Plain(n.geo.value.flag)
    ensures AllReadable(Observations(n))
  {
    SampleReadable(n.protocolHandshake);
    SampleReadable(n.measuredLatency);
    GeoReadable(n.geo);
    hide SampleValue, GeoValue;
    SixReadable(SampleValue(n.protocolHandshake), SampleValue(n.measuredLatency), FloatOrNone(n.jitterMs),
                FloatOf(n.score),
                GeoValue(n.geo), StrOf(n.outputName));
  }

  lemma NodeReadable(n: Node)
    requires PlainNode(n)
    ensures AllReadable(NodeFields(n))
  {
    hide Plain, Readable, AllReadable, Credentials, Carrier, Extras, Observations;
    CredentialsReadable(n);
    CarrierReadable(n);
    ExtrasReadable(n);
    ObservationsReadable(n);
    AllReadableAppend(Credentials(n), Carrier(n));
    AllReadableAppend(Credentials(n) + Carrier(n), Extras(n));
    AllReadableAppend(Credentials(n) + Carrier(n) + Extras(n), Observations(n));
  }

  lemma NamesAppend(a: seq<string>, b: seq<string>)
    requires GoodNames(a) && GoodNames(b)
    ensures GoodNames(a + b)
  {
  }

  lemma CredentialNamesGood()
    ensures GoodNames(CredentialNames())
  {
  }

  lemma CarrierNamesGood()
    ensures GoodNames(CarrierNames())
  {
    CarrierNamesHalf();
    assert GoodNames(["sni", "host_header", "transport"]);
    NamesAppend(["sni", "host_header", "transport"], ["security", "path", "service_name"]);
    hide GoodNames;
    assert CarrierNames() == ["sni", "host_header", "transport"] + ["security", "path", "service_name"];
  }

  lemma CarrierNamesHalf()
    ensures GoodNames(["security", "path", "service_name"])
  {
  }

  lemma ExtraNamesGood()
    ensures GoodNames(ExtraNames())
  {
    ExtraNamesHalf();
    assert GoodNames(["alpn", "fingerprint", "allow_insecure"]);
    NamesAppend(["alpn", "fingerprint", "allow_insecure"], ["flow", "protocol_fields", "tcp_connect"]);
    hide GoodNames;
    assert ExtraNames() == ["alpn", "fingerprint", "allow_insecure"] + ["flow", "protocol_fields", "tcp_connect"];
  }

  lemma ExtraNamesHalf()
    ensures GoodNames(["flow", "protocol_fields", "tcp_connect"])
  {
  }

  lemma ObservationNamesGood()
    ensures GoodNames(ObservationNames())
  {
    ObservationNamesHalf();
    assert GoodNames(["protocol_handshake", "measured_latency", "jitter_ms"]);
    NamesAppend(["protocol_handshake", "measured_latency", "jitter_ms"], ["score", "geo", "output_name"]);
    hide GoodNames;
    assert ObservationNames() == ["protocol_handshake", "measured_latency", "jitter_ms"]
           + ["score", "geo", "output_name"];
  }

  lemma ObservationNamesHalf()
    ensures GoodNames(["score", "geo", "output_name"])
  {
  }

  lemma NodeNamesGood()
    ensures GoodNames(NodeNames()) && Plain("Node") && Free("Node", ':')
  {
    hide GoodNames, CredentialNames, CarrierNames, ExtraNames, ObservationNames;
    CredentialNamesGood();
    CarrierNamesGood();
    ExtraNamesGood();
    ObservationNamesGood();
    NamesAppend(CredentialNames(), CarrierNames());
    NamesAppend(CredentialNames() + CarrierNames(), ExtraNames());
    NamesAppend(CredentialNames() + CarrierNames() + ExtraNames(), ObservationNames());
  }

  lemma NodeValueReadable(n: Node)
    requires PlainNode(n)
    ensures Readable(NodeValue(n))
  {
    hide PlainNode, Readable, AllReadable, NodeFields, Plain, GoodNames, NodeNames;
    NodeReadable(n);
    NodeNamesGood();
    ReadableRec("Node", NodeNames(), NodeFields(n));
  }

  lemma PairsDetermined(p: seq<(string, string)>, q: seq<(string, string)>)
    requires PairValues(p) == PairValues(q)
    ensures p == q
  {
    assert |p| == |q|;
    forall k | 0 <= k < |p| ensures p[k] == q[k] {
      assert PairValues(p)[k].items[0] == PairValues(q)[k].items[0];
      assert PairValues(p)[k].items[1] == PairValues(q)[k].items[1];
    }
  }

  lemma EndpointDetermined(a: Endpoint, b: Endpoint)
    requires EndpointValue(a) == EndpointValue(b)
    ensures a == b
  {
    var u, v := EndpointValue(a).fields, EndpointValue(b).fields;
    assert u[0] == v[0] && u[1] == v[1] && u[2] == v[2];
  }

  lemma SampleDetermined(a: Option<LatencySample>, b: Option<LatencySample>)
    requires SampleValue(a) == SampleValue(b)
    ensures a == b
  {
    if a.Some? && b.Some? {
      var u, v := SampleValue(a).fields, SampleValue(b).fields;
      assert u[0] == v[0] && u[1] == v[1] && u[2] == v[2] && u[3] == v[3] && u[4] == v[4];
    }
  }

  lemma GeoDetermined(a: Option<GeoInfo>, b: Option<GeoInfo>)
    requires GeoValue(a) == GeoValue(b)
    ensures a == b
  {
    if a.Some? && b.Some? {
      var u, v := GeoValue(a).fields, GeoValue(b).fields;
      assert u[0] == v[0] && u[1] == v[1] && u[2] == v[2] && u[3] == v[3];
    }
  }

  lemma CredentialsDetermined(a: Node, b: Node)
    requires Credentials(a) == Credentials(b)
    ensures a.protocol == b.protocol && a.endpoint == b.endpoint && a.rawUrl == b.rawUrl
    ensures a.uuid == b.uuid && a.password == b.password && a.secret == b.secret
  {
    var u, v := Credentials(a), Credentials(b);
    assert u[0] == v[0] && u[1] == v[1] && u[2] == v[2] && u[3] == v[3] && u[4] == v[4] && u[5] == v[5];
    EndpointDetermined(a.endpoint, b.endpoint);
  }

  lemma CarrierDetermined(a: Node, b: Node)
    requires Carrier(a) == Carrier(b)
    ensures a.sni == b.sni && a.hostHeader == b.hostHeader && a.transport == b.transport
    ensures a.security == b.security && a.path == b.path && a.serviceName == b.serviceName
  {
    var u, v := Carrier(a), Carrier(b);
    assert u[0] == v[0] && u[1] == v[1] && u[2] == v[2] && u[3] == v[3] && u[4] == v[4] && u[5] == v[5];
  }

  lemma ExtrasDetermined(a: Node, b: Node)
    requires Extras(a) == Extras(b)
    ensures a.alpn == b.alpn && a.fingerprint == b.fingerprint && a.allowInsecure == b.allowInsecure
    ensures a.flow == b.flow && a.protocolFields == b.protocolFields && a.tcpConnect == b.tcpConnect
  {
    var u, v := Extras(a), Extras(b);
    assert u[0] == v[0] && u[1] == v[1] && u[2] == v[2] && u[3] == v[3] && u[4] == v[4] && u[5] == v[5];
    PairsDetermined(a.protocolFields, b.protocolFields);
    SampleDetermined(a.tcpConnect, b.tcpConnect);
  }

  lemma ObservationsDetermined(a: Node, b: Node)
    requires Observations(a) == Observations(b)
    ensures a.protocolHandshake == b.protocolHandshake && a.measuredLatency == b.measuredLatency
    ensures a.jitterMs == b.jitterMs && a.score == b.score && a.geo == b.geo && a.outputName == b.outputName
  {
    var u, v := Observations(a), Observations(b);
    assert u[0] == v[0] && u[1] == v[1] && u[2] == v[2] && u[3] == v[3] && u[4] == v[4] && u[5] == v[5];
    SampleDetermined(a.protocolHandshake, b.protocolHandshake);
    SampleDetermined(a.measuredLatency, b.measuredLatency);
    GeoDetermined(a.geo, b.geo);
  }

  lemma NodeDetermined(a: Node, b: Node)
    requires NodeFields(a) == NodeFields(b)
    ensures a == b
  {
    hide Credentials, Carrier, Extras, Observations;
    var u, v := NodeFields(a), NodeFields(b);
    assert Credentials(a) == u[..6] && Credentials(b) == v[..6];
    assert Carrier(a) == u[6..12] && Carrier(b) == v[6..12];
    assert Extras(a) == u[12..18] && Extras(b) == v[12..18];
    assert Observations(a) == u[18..] && Observations(b) == v[18..];
    CredentialsDetermined(a, b);
    CarrierDetermined(a, b);
    ExtrasDetermined(a, b);
    ObservationsDetermined(a, b);
  }

  /** On plain nodes the content text is injective: level 4 separates any two distinct nodes. */
  lemma ContentSeparates(repr: Float -> string, a: Node, b: Node)
    requires GoodRepr(repr) && PlainNode(a) && PlainNode(b)
    requires ContentText(repr, a) == ContentText(repr, b)
    ensures a == b
  {
    hide Render, PlainNode, Readable, AllReadable, NodeFields, RenderAll, Plain, GoodRepr, NodeNames;
    NodeValueReadable(a);
    NodeValueReadable(b);
    assert ContentText(repr, a) + "" == ContentText(repr, b) + "";
    ValueReads(repr, NodeValue(a), NodeValue(b), "", "");
    NodeDetermined(a, b);
  }

  // ---------------------------------------------------------------------------
  // Which are not
  // ---------------------------------------------------------------------------

  /** The text between the values of `country` and `city`. */
  const BETWEEN: string := "," + ("city=" + "str:")

  /** Both places below keep within the length a place may have. */
  predicate Fits(x: string, y: string, z: string) {
    |x + BETWEEN + y| <= 128 && |y + BETWEEN + z| <= 128
  }

  /** Two places that differ only in where that text sits. */
  function CommaInCountry(g: GeoInfo, x: string, y: string, z: string): GeoInfo
    requires Fits(x, y, z)
  {
    g.(country := x + BETWEEN + y, city := z)
  }

  function CommaInCity(g: GeoInfo, x: string, y: string, z: string): GeoInfo
    requires Fits(x, y, z)
  {
    g.(country := x, city := y + BETWEEN + z)
  }

  lemma GeoTexts(repr: Float -> string, g: GeoInfo)
    ensures var fs := [StrOf(g.country), StrOf(g.city), StrOf(g.countryCode), StrOf(g.flag)];
            Equations(Entries(GEO_FIELDS, RenderAll(repr, fs)))
            == ["country=" + ("str:" + g.country), "city=" + ("str:" + g.city)]
               + Equations(Entries(GEO_FIELDS[2..], RenderAll(repr, [StrOf(g.countryCode), StrOf(g.flag)])))
  {
    var fs := [StrOf(g.country), StrOf(g.city), StrOf(g.countryCode), StrOf(g.flag)];
    assert fs[2..] == [StrOf(g.countryCode), StrOf(g.flag)] && fs[1..][1..] == fs[2..];
    FieldHead(GEO_FIELDS, RenderAll(repr, fs));
    FieldHead(GEO_FIELDS[1..], RenderAll(repr, fs[1..]));
    assert GEO_FIELDS[1..][1..] == GEO_FIELDS[2..] && RenderAll(repr, fs[1..])[1..] == RenderAll(repr, fs[2..]);
    assert GEO_FIELDS[0] + "=" == "country=" && GEO_FIELDS[1] + "=" == "city=";
  }

  lemma JoinPair(p: string, q: string, r: seq<string>)
    ensures Join([p, q] + r, ",") == p + "," + q + More(r, "")
  {
    hide More;
    assert ([p, q] + r)[1..] == [q] + r;
    JoinMore(q, r, "");
    assert Join([q] + r, ",") + "" == Join([q] + r, ",");
    assert p + "," + (q + More(r, "")) == p + "," + q + More(r, "");
  }

  lemma {:induction false} RenderAllAt(repr: Float -> string, vs: seq<Value>, k: nat)
    requires k < |vs|
    ensures RenderAll(repr, vs)[k] == Render(repr, vs[k])
  {
    if k > 0 {
      RenderAllAt(repr, vs[1..], k - 1);
    }
  }

  lemma PlaceAmbiguous(x: string, y: string, z: string)
    ensures "country=" + ("str:" + (x + BETWEEN + y)) + "," + ("city=" + ("str:" + z))
            == "country=" + ("str:" + x) + "," + ("city=" + ("str:" + (y + BETWEEN + z)))
  {
    var head, tag := "country=", "str:";
    assert "," + ("city=" + ("str:" + z)) == BETWEEN + z;
    assert "," + ("city=" + ("str:" + (y + BETWEEN + z))) == BETWEEN + (y + BETWEEN + z);
    assert head + (tag + (x + BETWEEN + y)) + (BETWEEN + z) == head + (tag + x) + (BETWEEN + (y + BETWEEN + z));
  }

  lemma GeoAmbiguous(repr: Float -> string, g: GeoInfo, x: string, y: string, z: string)
    requires Fits(x, y, z)
    ensures Render(repr, GeoValue(Some(CommaInCountry(g, x, y, z))))
            == Render(repr, GeoValue(Some(CommaInCity(g, x, y, z))))
  {
    var p, q := CommaInCountry(g, x, y, z), CommaInCity(g, x, y, z);
    var us := [StrOf(p.country), StrOf(p.city), StrOf(p.countryCode), StrOf(p.flag)];
    var vs := [StrOf(q.country), StrOf(q.city), StrOf(q.countryCode), StrOf(q.flag)];
    var name := "GeoInfo";
    assert GeoValue(Some(p)) == RecOf(name, GEO_FIELDS, us) && GeoValue(Some(q)) == RecOf(name, GEO_FIELDS, vs);
    RecRender(repr, name, GEO_FIELDS, us);
    RecRender(repr, name, GEO_FIELDS, vs);
    hide Render, RenderAll, Join, Equations, Entries, GeoValue;
    GeoTexts(repr, p);
    GeoTexts(repr, q);
    PlaceAmbiguous(x, y, z);
    var r := Equations(Entries(GEO_FIELDS[2..], RenderAll(repr, [StrOf(g.countryCode), StrOf(g.flag)])));
    JoinPair("country=" + ("str:" + p.country), "city=" + ("str:" + p.city), r);
    JoinPair("country=" + ("str:" + q.country), "city=" + ("str:" + q.city), r);
  }

  /** Nodes whose fields print alike, one by one, have the same content text. */
  lemma ContentFromFields(repr: Float -> string, a: Node, b: Node)
    requires forall k | 0 <= k < 24 :: Render(repr, NodeFields(a)[k]) == Render(repr, NodeFields(b)[k])
    ensures ContentText(repr, a) == ContentText(repr, b)
  {
    hide NodeFields, NodeNames;
    forall k | 0 <= k < 24 ensures RenderAll(repr, NodeFields(a))[k] == RenderAll(repr, NodeFields(b))[k] {
      RenderAllAt(repr, NodeFields(a), k);
      RenderAllAt(repr, NodeFields(b), k);
    }
    assert RenderAll(repr, NodeFields(a)) == RenderAll(repr, NodeFields(b));
    var name := "Node";
    RecRender(repr, name, NodeNames(), NodeFields(a));
    RecRender(repr, name, NodeNames(), NodeFields(b));
    assert Render(repr, RecOf(name, NodeNames(), NodeFields(a)))
           == Render(repr, RecOf(name, NodeNames(), NodeFields(b)));
    assert ContentText(repr, a) == Render(repr, RecOf(name, NodeNames(), NodeFields(a)));
    assert ContentText(repr, b) == Render(repr, RecOf(name, NodeNames(), NodeFields(b)));
  }

  lemma FieldsButGeo(n: Node, g: GeoInfo, h: GeoInfo)
    ensures var u, v := NodeFields(n.(geo := Some(g))), NodeFields(n.(geo := Some(h)));
            && u[22] == GeoValue(Some(g)) && v[22] == GeoValue(Some(h))
            && forall k | 0 <= k < 24 && k != 22 :: u[k] == v[k]
  {
    var a, b := n.(geo := Some(g)), n.(geo := Some(h));
    var front := Credentials(a) + Carrier(a) + Extras(a);
    assert Credentials(a) == Credentials(b) && Carrier(a) == Carrier(b) && Extras(a) == Extras(b);
    var u, v := Observations(a), Observations(b);
    assert u[4] == GeoValue(Some(g)) && v[4] == GeoValue(Some(h));
    assert u[0] == v[0] && u[1] == v[1] && u[2] == v[2] && u[3] == v[3] && u[5] == v[5];
    hide Credentials, Carrier, Extras, Observations;
    assert |front| == 18 && NodeFields(a) == front + u && NodeFields(b) == front + v;
    forall k | 0 <= k < 24 && k != 22 ensures NodeFields(a)[k] == NodeFields(b)[k] {
      if k >= 18 {
        assert NodeFields(a)[k] == u[k - 18] && NodeFields(b)[k] == v[k - 18];
      }
    }
  }

  /**
   * Strings are not escaped: two occurrences of one configuration that differ only in
   * where a comma sits between country and city tie on every level of the order.
   */
  lemma ContentAmbiguous(repr: Float -> string, n: Node, g: GeoInfo, x: string, y: string, z: string)
    requires Fits(x, y, z)
    ensures var a, b := n.(geo := Some(CommaInCountry(g, x, y, z))), n.(geo := Some(CommaInCity(g, x, y, z)));
            && a != b && KeyOf(a) == KeyOf(b) && IdentityText(repr, a) == IdentityText(repr, b)
            && ContentText(repr, a) == ContentText(repr, b)
  {
    var p, q := CommaInCountry(g, x, y, z), CommaInCity(g, x, y, z);
    assert |p.country| > |q.country|;
    GeoAmbiguous(repr, g, x, y, z);
    FieldsButGeo(n, p, q);
    hide NodeFields, Render, GeoValue, CommaInCountry, CommaInCity, NodeNames;
    ContentFromFields(repr, n.(geo := Some(p)), n.(geo := Some(q)));
  }
}
