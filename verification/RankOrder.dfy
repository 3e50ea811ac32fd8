/** The order of a ranking in terms of nodes and outcomes, level by level, and the texts it compares. */
module RankOrder {
  import opened Common
  import opened Numbers
  import opened Model
  import opened Scoring
  import opened Text
  import opened Sorting
  import opened NodeText
  import opened Canonical
  import opened Ranking

  // ---------------------------------------------------------------------------
  // Texts
  // ---------------------------------------------------------------------------

  /** `a < b` for strings: at the first difference `a` ends or has the smaller character. */
  ghost predicate Precedes(a: string, b: string) {
    exists k: nat :: DiffersAt(a, b, k)
  }

  ghost predicate DiffersAt(a: string, b: string, k: nat) {
    k <= |a| && k < |b| && (forall m | 0 <= m < k :: a[m] == b[m]) && (k < |a| ==> a[k] < b[k])
  }

  lemma {:induction false} TextLeExactly(a: string, b: string)
    ensures TextLe(a, b) <==> a == b || Precedes(a, b)
    ensures !Precedes(a, a)
  {
    if a == "" {
      assert b != "" ==> DiffersAt(a, b, 0);
    } else if b == "" {
    } else if a[0] != b[0] {
      assert a[0] < b[0] ==> DiffersAt(a, b, 0);
    } else {
      TextLeExactly(a[1..], b[1..]);
      assert a == [a[0]] + a[1..] && b == [b[0]] + b[1..];
      forall k: nat | DiffersAt(a[1..], b[1..], k) ensures DiffersAt(a, b, k + 1) {
        assert forall m | 0 < m <= k :: a[m] == a[1..][m - 1] && b[m] == b[1..][m - 1];
      }
      forall k: nat | DiffersAt(a, b, k) ensures k > 0 && DiffersAt(a[1..], b[1..], k - 1) {
        assert k > 0;
        assert forall m | 0 <= m < k - 1 :: a[1..][m] == a[m + 1] && b[1..][m] == b[m + 1];
      }
    }
  }

  // ---------------------------------------------------------------------------
  // What is compared
  // ---------------------------------------------------------------------------

  lemma {:induction false} RenderedEach(repr: Float -> string, vs: seq<Value>, k: nat)
    requires k < |vs|
    ensures RenderAll(repr, vs)[k] == Render(repr, vs[k])
  {
    if k > 0 {
      RenderedEach(repr, vs[1..], k - 1);
    }
  }

  function StrText(s: string): string {
    "str:" + s
  }

  function IntText(i: int): string {
    "int:" + Integer(i)
  }

  function FloatText(repr: Float -> string, f: Float): string {
    "float:" + repr(f)
  }

  function FlagText(b: bool): string {
    if b then "bool:1" else "bool:0"
  }

  function EnumText(enum: string, member: string): string {
    "enum:" + enum + "." + member
  }

  function SeqText(parts: seq<string>): string {
    "seq[" + Join(parts, ",") + "]"
  }

  function FieldText(name: string, text: string): string {
    name + "=" + text
  }

  function RecText(record: string, parts: seq<string>): string {
    "rec(" + record + ":" + Join(parts, ",") + ")"
  }

  lemma Rendered(repr: Float -> string)
    ensures forall s :: Render(repr, StrOf(s)) == StrText(s)
    ensures forall i :: Render(repr, IntOf(i)) == IntText(i)
    ensures forall b :: Render(repr, BoolOf(b)) == FlagText(b)
    ensures forall f :: Render(repr, FloatOf(f)) == FloatText(repr, f)
    ensures forall enum, member :: Render(repr, EnumOf(enum, member)) == EnumText(enum, member)
    ensures Render(repr, NoneOf) == "none"
  {
    hide Integer;
  }

  lemma SeqRendered(repr: Float -> string, items: seq<Value>, parts: seq<string>)
    requires |parts| == |items| && forall k | 0 <= k < |items| :: parts[k] == Render(repr, items[k])
    ensures Render(repr, SeqOf(items)) == SeqText(parts)
  {
    forall k | 0 <= k < |items| ensures RenderAll(repr, items)[k] == parts[k] {
      RenderedEach(repr, items, k);
    }
    assert RenderAll(repr, items) == parts;
    hide Join;
  }

  lemma AllRendered(repr: Float -> string, k: Value, l: Value)
    ensures RenderAll(repr, [k]) == [Render(repr, k)] && RenderAll(repr, [k, l]) == [Render(repr, k), Render(repr, l)]
  {
    assert [k][1..] == [] && [k, l][1..] == [l];
    hide Render;
  }

  lemma TwoSorted<T>(a: T, b: T, le: (T, T) -> bool)
    ensures Sort([a], le) == [a] && Sort([a, b], le) == if le(a, b) then [a, b] else [b, a]
  {
    assert [a, b][1..] == [b] && [b][1..] == [] && [a][1..] == [];
  }

  /** Sets by their members' texts in order, anything else by the name of its type. */
  lemma OthersRendered(repr: Float -> string, k: Value, l: Value, m: string, q: string)
    ensures Render(repr, OpaqueOf(m, q)) == "opaque:" + m + "." + q
    ensures var a, b := Render(repr, k), Render(repr, l);
            Render(repr, SetOf([k, l])) == "set{" + (if TextLe(a, b) then a + "," + b else b + "," + a) + "}"
  {
    AllRendered(repr, k, l);
    TwoSorted(Render(repr, k), Render(repr, l), TextLe);
    hide TextLe, RenderAll, Sort;
    assert forall x: string, y: string :: Join([x, y], ",") == x + "," + y;
  }

  /** Mappings by the texts of their entries. */
  lemma EntryRendered(repr: Float -> string, k: Value, v: Value)
    ensures Render(repr, MapOf([k], [v])) == "map{" + (Render(repr, k) + "=" + Render(repr, v)) + "}"
  {
    AllRendered(repr, k, v);
    AllRendered(repr, v, k);
    var entry := (Render(repr, k), Render(repr, v));
    assert Entries([entry.0], [entry.1]) == [entry];
    TwoSorted(entry, entry, (x: (string, string), y: (string, string)) => TextLe(x.0, y.0));
    assert Equations([entry]) == [entry.0 + "=" + entry.1];
    hide TextLe, RenderAll, Sort, Entries, Equations;
  }

  lemma {:induction false} EquationsAre(names: seq<string>, texts: seq<string>, parts: seq<string>)
    requires |names| == |texts| == |parts| && forall k | 0 <= k < |names| :: parts[k] == FieldText(names[k], texts[k])
    ensures Equations(Entries(names, texts)) == parts
  {
    if names != [] {
      EquationsAre(names[1..], texts[1..], parts[1..]);
      assert parts == [parts[0]] + parts[1..];
      assert Entries(names, texts)[1..] == Entries(names[1..], texts[1..]);
    }
  }

  lemma RecRendered(repr: Float -> string, record: string, names: seq<string>, fields: seq<Value>, parts: seq<string>)
    requires |names| == |fields| == |parts|
    requires forall k | 0 <= k < |names| :: parts[k] == FieldText(names[k], Render(repr, fields[k]))
    ensures Render(repr, RecOf(record, names, fields)) == RecText(record, parts)
  {
    forall k | 0 <= k < |fields| ensures RenderAll(repr, fields)[k] == Render(repr, fields[k]) {
      RenderedEach(repr, fields, k);
    }
    EquationsAre(names, RenderAll(repr, fields), parts);
    RecIs(repr, record, names, fields);
    hide *;
  }

  lemma RecIs(repr: Float -> string, record: string, names: seq<string>, fields: seq<Value>)
    ensures Render(repr, RecOf(record, names, fields))
            == RecText(record, Equations(Entries(names, RenderAll(repr, fields))))
  {
    hide Join, Equations, Entries, RenderAll;
  }

  /** Enum members by name. */
  ghost predicate Member(n: Node, protocol: string, transport: string, security: string) {
    && (n.protocol == VLESS ==> protocol == "VLESS") && (n.protocol == VMESS ==> protocol == "VMESS")
    && (n.protocol == SHADOWSOCKS ==> protocol == "SHADOWSOCKS") && (n.protocol == TROJAN ==> protocol == "TROJAN")
    && (n.protocol == HYSTERIA2 ==> protocol == "HYSTERIA2") && (n.protocol == SOCKS5 ==> protocol == "SOCKS5")
    && (n.protocol == OTHER ==> protocol == "OTHER")
    && (n.transport == TCP ==> transport == "TCP") && (n.transport == WS ==> transport == "WS")
    && (n.transport == GRPC ==> transport == "GRPC") && (n.transport == XHTTP ==> transport == "XHTTP")
    && (n.transport == HTTP2 ==> transport == "HTTP2") && (n.transport == QUIC ==> transport == "QUIC")
    && (n.transport == UNKNOWN_TRANSPORT ==> transport == "UNKNOWN")
    && (n.security == TLS ==> security == "TLS") && (n.security == REALITY ==> security == "REALITY")
    && (n.security == NO_SECURITY ==> security == "NONE") && (n.security == UNKNOWN_SECURITY ==> security == "UNKNOWN")
  }

  function PairTexts(pairs: seq<(string, string)>): seq<string> {
    seq(|pairs|, i requires 0 <= i < |pairs| => SeqText([StrText(pairs[i].0), StrText(pairs[i].1)]))
  }

  function DialledHost(n: Node): string {
    if n.endpoint.resolvedIp.Some? && n.endpoint.resolvedIp.value != "" then n.endpoint.resolvedIp.value
    else n.endpoint.host
  }

  lemma PairsRendered(repr: Float -> string, pairs: seq<(string, string)>)
    ensures Render(repr, SeqOf(PairValues(pairs))) == SeqText(PairTexts(pairs))
  {
    Rendered(repr);
    hide StrText, SeqText, Render;
    forall k | 0 <= k < |pairs| ensures PairTexts(pairs)[k] == Render(repr, PairValues(pairs)[k]) {
      SeqRendered(repr, [StrOf(pairs[k].0), StrOf(pairs[k].1)], [StrText(pairs[k].0), StrText(pairs[k].1)]);
    }
    SeqRendered(repr, PairValues(pairs), PairTexts(pairs));
  }

  /** The parts of a configuration in the order the identity lists them. */
  function IdentityParts(n: Node, protocol: string, transport: string, security: string): seq<string> {
    [EnumText("Protocol", protocol), StrText(DialledHost(n)), IntText(n.endpoint.port), StrText(n.uuid),
     StrText(n.password), StrText(n.secret), StrText(n.sni), StrText(n.hostHeader),
     EnumText("Transport", transport), EnumText("Security", security), StrText(n.path),
     StrText(n.serviceName), StrText(n.alpn), StrText(n.fingerprint), FlagText(n.allowInsecure),
     StrText(n.flow), SeqText(PairTexts(n.protocolFields))]
  }

  lemma MembersNamed(n: Node, protocol: string, transport: string, security: string)
    requires Member(n, protocol, transport, security)
    ensures ProtocolMember(n.protocol) == protocol && TransportMember(n.transport) == transport
    ensures SecurityMember(n.security) == security
  {
  }

  lemma IdentityMembers(repr: Float -> string, n: Node, protocol: string, transport: string, security: string)
    requires Member(n, protocol, transport, security)
    ensures var items, parts := KeyValue(KeyOf(n)).items, IdentityParts(n, protocol, transport, security);
            && Render(repr, items[0]) == parts[0]
            && Render(repr, items[8]) == parts[8]
            && Render(repr, items[9]) == parts[9]
  {
    MembersNamed(n, protocol, transport, security);
    Rendered(repr);
    hide Render, StrText, SeqText, EnumText, FlagText, IntText, PairTexts, PairValues, Member, ProtocolMember,
         TransportMember, SecurityMember;
  }

  lemma IdentityFront(repr: Float -> string, n: Node, protocol: string, transport: string, security: string)
    ensures var items, parts := KeyValue(KeyOf(n)).items, IdentityParts(n, protocol, transport, security);
            && Render(repr, items[1]) == parts[1]
            && Render(repr, items[2]) == parts[2]
            && Render(repr, items[3]) == parts[3]
            && Render(repr, items[4]) == parts[4]
            && Render(repr, items[5]) == parts[5]
            && Render(repr, items[6]) == parts[6]
            && Render(repr, items[7]) == parts[7]
  {
    Rendered(repr);
    hide Render, StrText, SeqText, EnumText, FlagText, IntText, PairTexts, PairValues, Member, ProtocolMember,
         TransportMember, SecurityMember;
  }

  lemma IdentityMiddle(repr: Float -> string, n: Node, protocol: string, transport: string, security: string)
    ensures var items, parts := KeyValue(KeyOf(n)).items, IdentityParts(n, protocol, transport, security);
            && Render(repr, items[10]) == parts[10]
            && Render(repr, items[11]) == parts[11]
            && Render(repr, items[12]) == parts[12]
            && Render(repr, items[13]) == parts[13]
  {
    Rendered(repr);
    hide Render, StrText, SeqText, EnumText, FlagText, IntText, PairTexts, PairValues, Member, ProtocolMember,
         TransportMember, SecurityMember;
  }

  lemma IdentityBack(repr: Float -> string, n: Node, protocol: string, transport: string, security: string)
    ensures var items, parts := KeyValue(KeyOf(n)).items, IdentityParts(n, protocol, transport, security);
            && Render(repr, items[14]) == parts[14]
            && Render(repr, items[15]) == parts[15]
            && Render(repr, items[16]) == parts[16]
  {
    Rendered(repr);
    PairsRendered(repr, n.protocolFields);
    hide Render, StrText, SeqText, EnumText, FlagText, IntText, PairTexts, PairValues, Member, ProtocolMember,
         TransportMember, SecurityMember;
  }

  /** Level 3 compares protocol, dialled host, port and every other part of the configuration, in this order. */
  lemma IdentitySpelled(repr: Float -> string, n: Node, protocol: string, transport: string, security: string)
    requires Member(n, protocol, transport, security)
    ensures IdentityText(repr, n) == SeqText(IdentityParts(n, protocol, transport, security))
  {
    IdentityMembers(repr, n, protocol, transport, security);
    IdentityFront(repr, n, protocol, transport, security);
    IdentityMiddle(repr, n, protocol, transport, security);
    IdentityBack(repr, n, protocol, transport, security);
    assert |KeyValue(KeyOf(n)).items| == 17 == |IdentityParts(n, protocol, transport, security)|;
    assert KeyValue(KeyOf(n)) == SeqOf(KeyValue(KeyOf(n)).items);
    hide Render, IdentityParts, KeyValue, SeqText, Member;
    SeqRendered(repr, KeyValue(KeyOf(n)).items, IdentityParts(n, protocol, transport, security));
  }

  function OptionalStr(o: Option<string>): string {
    if o.Some? then StrText(o.value) else "none"
  }

  function OptionalFloat(repr: Float -> string, o: Option<Float>): string {
    if o.Some? then FloatText(repr, o.value) else "none"
  }

  function EndpointText(e: Endpoint): string {
    RecText("Endpoint", [FieldText("host", StrText(e.host)), FieldText("port", IntText(e.port)),
                         FieldText("resolved_ip", OptionalStr(e.resolvedIp))])
  }

  function KindName(k: LatencyKind): string {
    if k == TCP_CONNECT then "TCP_CONNECT" else if k == MEASURED then "MEASURED" else "PROTOCOL_HANDSHAKE"
  }

  function SampleText(repr: Float -> string, o: Option<LatencySample>): string {
    if o.None? then "none"
    else
      RecText("LatencySample",
              [FieldText("value_ms", OptionalFloat(repr, o.value.valueMs)),
               FieldText("kind", EnumText("LatencyKind", KindName(o.value.kind))),
               FieldText("attempts", IntText(o.value.attempts)),
               FieldText("measured_at", FloatText(repr, o.value.measuredAt)),
               FieldText("provenance", StrText(o.value.provenance))])
  }

  function PlaceRecord(o: Option<GeoInfo>): string {
    if o.None? then "none"
    else
      RecText("GeoInfo",
              [FieldText("country", StrText(o.value.country)), FieldText("city", StrText(o.value.city)),
               FieldText("country_code", StrText(o.value.countryCode)), FieldText("flag", StrText(o.value.flag))])
  }

  lemma EndpointRendered(repr: Float -> string, e: Endpoint)
    ensures Render(repr, EndpointValue(e)) == EndpointText(e)
  {
    Rendered(repr);
    hide Render, StrText, IntText, RecText, FieldText;
    RecRendered(repr, "Endpoint", ENDPOINT_FIELDS, [StrOf(e.host), IntOf(e.port), TextOrNone(e.resolvedIp)],
                [FieldText("host", StrText(e.host)), FieldText("port", IntText(e.port)),
                 FieldText("resolved_ip", OptionalStr(e.resolvedIp))]);
  }

  lemma SampleRendered(repr: Float -> string, o: Option<LatencySample>)
    ensures Render(repr, SampleValue(o)) == SampleText(repr, o)
  {
    Rendered(repr);
    if o.Some? {
      assert KindMember(o.value.kind) == KindName(o.value.kind);
      hide Render, StrText, IntText, EnumText, FloatText, RecText, FieldText, KindMember, KindName;
      RecRendered(repr, "LatencySample", SAMPLE_FIELDS, SampleValue(o).fields,
                  [FieldText("value_ms", OptionalFloat(repr, o.value.valueMs)),
                   FieldText("kind", EnumText("LatencyKind", KindName(o.value.kind))),
                   FieldText("attempts", IntText(o.value.attempts)),
                   FieldText("measured_at", FloatText(repr, o.value.measuredAt)),
                   FieldText("provenance", StrText(o.value.provenance))]);
    }
  }

  lemma PlaceRendered(repr: Float -> string, o: Option<GeoInfo>)
    ensures Render(repr, GeoValue(o)) == PlaceRecord(o)
  {
    Rendered(repr);
    if o.Some? {
      hide Render, StrText, RecText, FieldText;
      RecRendered(repr, "GeoInfo", GEO_FIELDS, GeoValue(o).fields,
                  [FieldText("country", StrText(o.value.country)), FieldText("city", StrText(o.value.city)),
                   FieldText("country_code", StrText(o.value.countryCode)), FieldText("flag", StrText(o.value.flag))]);
    }
  }

  /** The fields of a node in declaration order, six at a time. */
  function CredentialParts(n: Node, protocol: string): (r: seq<string>)
    ensures |r| == 6
  {
    [FieldText("protocol", EnumText("Protocol", protocol)), FieldText("endpoint", EndpointText(n.endpoint)),
     FieldText("raw_url", StrText(n.rawUrl)), FieldText("uuid", StrText(n.uuid)),
     FieldText("password", StrText(n.password)), FieldText("secret", StrText(n.secret))]
  }

  function CarrierParts(n: Node, transport: string, security: string): (r: seq<string>)
    ensures |r| == 6
  {
    [FieldText("sni", StrText(n.sni)), FieldText("host_header", StrText(n.hostHeader)),
     FieldText("transport", EnumText("Transport", transport)), FieldText("security", EnumText("Security", security)),
     FieldText("path", StrText(n.path)), FieldText("service_name", StrText(n.serviceName))]
  }

  function ExtraParts(repr: Float -> string, n: Node): (r: seq<string>)
    ensures |r| == 6
  {
    [FieldText("alpn", StrText(n.alpn)), FieldText("fingerprint", StrText(n.fingerprint)),
     FieldText("allow_insecure", FlagText(n.allowInsecure)), FieldText("flow", StrText(n.flow)),
     FieldText("protocol_fields", SeqText(PairTexts(n.protocolFields))),
     FieldText("tcp_connect", SampleText(repr, n.tcpConnect))]
  }

  function ObservationParts(repr: Float -> string, n: Node): (r: seq<string>)
    ensures |r| == 6
  {
    [FieldText("protocol_handshake", SampleText(repr, n.protocolHandshake)),
     FieldText("measured_latency", SampleText(repr, n.measuredLatency)),
     FieldText("jitter_ms", OptionalFloat(repr, n.jitterMs)), FieldText("score", FloatText(repr, n.score)),
     FieldText("geo", PlaceRecord(n.geo)), FieldText("output_name", StrText(n.outputName))]
  }

  ghost predicate FieldsRendered(repr: Float -> string, names: seq<string>, fields: seq<Value>, parts: seq<string>) {
    && |names| == |fields| == |parts|
    && forall k | 0 <= k < |names| :: parts[k] == FieldText(names[k], Render(repr, fields[k]))
  }

  lemma CredentialsRendered(repr: Float -> string, n: Node, protocol: string)
    requires ProtocolMember(n.protocol) == protocol
    ensures FieldsRendered(repr, CredentialNames(), Credentials(n), CredentialParts(n, protocol))
  {
    Rendered(repr);
    EndpointRendered(repr, n.endpoint);
    hide Render, StrText, EnumText, EndpointText, EndpointValue, FieldText, ProtocolMember;
  }

  lemma CarrierRendered(repr: Float -> string, n: Node, transport: string, security: string)
    requires TransportMember(n.transport) == transport && SecurityMember(n.security) == security
    ensures FieldsRendered(repr, CarrierNames(), Carrier(n), CarrierParts(n, transport, security))
  {
    Rendered(repr);
    hide Render, StrText, EnumText, FieldText, TransportMember, SecurityMember;
  }

  lemma ExtrasRendered(repr: Float -> string, n: Node)
    ensures FieldsRendered(repr, ExtraNames(), Extras(n), ExtraParts(repr, n))
  {
    Rendered(repr);
    PairsRendered(repr, n.protocolFields);
    SampleRendered(repr, n.tcpConnect);
    hide Render, StrText, FlagText, SeqText, PairTexts, PairValues, SampleText, SampleValue, FieldText;
  }

  lemma ObservationsRendered(repr: Float -> string, n: Node)
    ensures FieldsRendered(repr, ObservationNames(), Observations(n), ObservationParts(repr, n))
  {
    Rendered(repr);
    SampleRendered(repr, n.protocolHandshake);
    SampleRendered(repr, n.measuredLatency);
    PlaceRendered(repr, n.geo);
    hide Render, StrText, FloatText, SampleText, SampleValue, GeoValue, PlaceRecord, FieldText;
  }

  lemma FieldsAppend(repr: Float -> string, names: seq<string>, fields: seq<Value>, parts: seq<string>,
                     moreNames: seq<string>, more: seq<Value>, moreParts: seq<string>)
    requires FieldsRendered(repr, names, fields, parts) && FieldsRendered(repr, moreNames, more, moreParts)
    ensures FieldsRendered(repr, names + moreNames, fields + more, parts + moreParts)
  {
    hide Render, FieldText;
  }

  /** Level 4 compares every field of the node by name, in declaration order. */
  lemma ContentSpelled(repr: Float -> string, n: Node, protocol: string, transport: string, security: string)
    requires Member(n, protocol, transport, security)
    ensures ContentText(repr, n) == RecText("Node", CredentialParts(n, protocol) + CarrierParts(n, transport, security)
                                                    + ExtraParts(repr, n) + ObservationParts(repr, n))
  {
    MembersNamed(n, protocol, transport, security);
    CredentialsRendered(repr, n, protocol);
    CarrierRendered(repr, n, transport, security);
    ExtrasRendered(repr, n);
    ObservationsRendered(repr, n);
    hide CredentialParts, CarrierParts, ExtraParts, ObservationParts, Credentials, Carrier, Extras, Observations,
         CredentialNames, CarrierNames, ExtraNames, ObservationNames, Render, RecText, FieldText, Member,
         FieldsRendered;
    var a, b, c := CredentialParts(n, protocol), CarrierParts(n, transport, security), ExtraParts(repr, n);
    FieldsAppend(repr, CredentialNames(), Credentials(n), a, CarrierNames(), Carrier(n), b);
    FieldsAppend(repr, CredentialNames() + CarrierNames(), Credentials(n) + Carrier(n), a + b,
                 ExtraNames(), Extras(n), c);
    FieldsAppend(repr, CredentialNames() + CarrierNames() + ExtraNames(), Credentials(n) + Carrier(n) + Extras(n),
                 a + b + c, ObservationNames(), Observations(n), ObservationParts(repr, n));
    NodeRendered(repr, n, a + b + c + ObservationParts(repr, n));
  }

  lemma NodeRendered(repr: Float -> string, n: Node, parts: seq<string>)
    requires FieldsRendered(repr, NodeNames(), NodeFields(n), parts)
    ensures ContentText(repr, n) == RecText("Node", parts)
  {
    hide Render, RecText, FieldText, NodeNames, NodeFields;
    RecRendered(repr, "Node", NodeNames(), NodeFields(n), parts);
  }

  // ---------------------------------------------------------------------------
  // The levels
  // ---------------------------------------------------------------------------

  /** The identity text decides, or it is the same and the content text is no greater. */
  ghost predicate ByLevels(repr: Float -> string, m: Node, n: Node) {
    var p, q, s, t := IdentityText(repr, m), IdentityText(repr, n), ContentText(repr, m), ContentText(repr, n);
    Precedes(p, q) || (p == q && (Precedes(s, t) || s == t))
  }

  lemma WordPairs(repr: Float -> string, m: Node, n: Node)
    ensures WordsLe([IdentityText(repr, m), ContentText(repr, m)], [IdentityText(repr, n), ContentText(repr, n)])
            <==> ByLevels(repr, m, n)
  {
    var p, q, s, t := IdentityText(repr, m), IdentityText(repr, n), ContentText(repr, m), ContentText(repr, n);
    TextLeExactly(p, q);
    TextLeExactly(s, t);
    hide IdentityText, ContentText, TextLe, Precedes;
    assert [p, s][1..] == [s] && [q, t][1..] == [t] && [s][1..] == [] && [t][1..] == [];
  }

  /** A scored outcome with this score, and a node with this measured latency. */
  ghost predicate Weighs(c: Node, o: ScoreOutcome, score: real, ms: real) {
    && o.status == Scored && o.score == Some(Fin(score))
    && c.measuredLatency.Some? && c.measuredLatency.value.kind == MEASURED
    && c.measuredLatency.value.valueMs == Some(Fin(ms)) && ms > 0.0
  }

  /** Higher score first; then lower latency; then the identity text; then the content text. */
  ghost predicate Outranks(repr: Float -> string, m: Node, x: ScoreOutcome, n: Node, y: ScoreOutcome) {
    exists a, u, b, v :: Weighs(m, x, a, u) && Weighs(n, y, b, v)
                         && (a > b || (a == b && (u < v || (u == v && ByLevels(repr, m, n)))))
  }

  lemma RowsBefore(repr: Float -> string, c: Candidate, d: Candidate)
    requires IsScored(c) && IsScored(d) && RefusalOf(c).None? && RefusalOf(d).None?
    requires KeyLe(RankedRow(repr, c).key, RankedRow(repr, d).key)
    ensures Outranks(repr, c.node, c.outcome, d.node, d.outcome)
  {
    WordPairs(repr, c.node, d.node);
    hide IdentityText, ContentText, WordsLe, ByLevels;
    var a, b := c.outcome.score.value.r, d.outcome.score.value.r;
    var u, v := c.node.measuredLatency.value.valueMs.value.r, d.node.measuredLatency.value.valueMs.value.r;
    assert Weighs(c.node, c.outcome, a, u) && Weighs(d.node, d.outcome, b, v);
  }

  /** Of two ranked candidates the earlier one wins at the first level where they differ. */
  lemma RankedByLevels(repr: Float -> string, cs: seq<Candidate>, i: nat, j: nat)
    requires Admitted(cs) && i < j < |Ranked(repr, cs)|
    ensures var p, q := Ranked(repr, cs)[i], Ranked(repr, cs)[j];
            Outranks(repr, p.node, p.outcome, q.node, q.outcome)
  {
    hide KeyLe, Sort, RankedRows, RankedRow, Outranks, IsScored, RefusalOf;
    RowsKeyed(repr, cs, i);
    RowsKeyed(repr, cs, j);
    SortedPermutations(repr, cs);
    RowsBefore(repr, Entry(Ranked(repr, cs)[i]), Entry(Ranked(repr, cs)[j]));
  }

  ghost predicate NotRankedBefore(repr: Float -> string, m: Node, x: ScoreOutcome, n: Node, y: ScoreOutcome) {
    exists s, t :: StatusNamed(x.status, s) && StatusNamed(y.status, t)
                   && (Precedes(s, t) || (s == t && (Precedes(x.detail, y.detail)
                                                     || (x.detail == y.detail && ByLevels(repr, m, n)))))
  }

  /** The texts of the statuses that are not ranked. */
  ghost predicate StatusNamed(s: Status, text: string) {
    && (s == Unsupported ==> text == "unsupported") && (s == Unscorable ==> text == "unscorable")
    && (s == InsufficientData ==> text == "insufficient_data") && s != Scored
  }

  lemma WordFirst(s: string, t: string, v: seq<string>, w: seq<string>)
    ensures WordsLe([s] + v, [t] + w) <==> Precedes(s, t) || (s == t && WordsLe(v, w))
  {
    TextLeExactly(s, t);
    hide TextLe, Precedes;
    assert ([s] + v)[1..] == v && ([t] + w)[1..] == w;
  }

  lemma WordQuads(s: string, t: string, d: string, e: string, v: seq<string>, w: seq<string>)
    ensures WordsLe([s, d] + v, [t, e] + w)
            <==> Precedes(s, t) || (s == t && (Precedes(d, e) || (d == e && WordsLe(v, w))))
  {
    WordFirst(s, t, [d] + v, [e] + w);
    WordFirst(d, e, v, w);
    hide *;
    assert [s, d] + v == [s] + ([d] + v) && [t, e] + w == [t] + ([e] + w);
  }

  lemma UnrankedBefore(repr: Float -> string, c: Candidate, d: Candidate)
    requires !IsScored(c) && !IsScored(d) && WordsLe(UnrankedRow(repr, c).key, UnrankedRow(repr, d).key)
    ensures NotRankedBefore(repr, c.node, c.outcome, d.node, d.outcome)
  {
    WordPairs(repr, c.node, d.node);
    var s, t := StatusText(c.outcome.status), StatusText(d.outcome.status);
    assert StatusNamed(c.outcome.status, s) && StatusNamed(d.outcome.status, t);
    hide IdentityText, ContentText, WordsLe, ByLevels, StatusText, StatusNamed, Precedes;
    var v := [IdentityText(repr, c.node), ContentText(repr, c.node)];
    var w := [IdentityText(repr, d.node), ContentText(repr, d.node)];
    WordQuads(s, t, c.outcome.detail, d.outcome.detail, v, w);
    assert UnrankedRow(repr, c).key == [s, c.outcome.detail] + v;
    assert UnrankedRow(repr, d).key == [t, d.outcome.detail] + w;
  }

  lemma UnrankedKeyed(repr: Float -> string, cs: seq<Candidate>, i: nat)
    requires i < |Unranked(repr, cs)|
    ensures var row := Unranked(repr, cs)[i];
            row == UnrankedRow(repr, Entry(row)) && !IsScored(Entry(row)) && Entry(row) in cs
  {
    hide Sort, UnrankedRow, IsScored, WordsLe;
    var row := Unranked(repr, cs)[i];
    SortPermutes(UnrankedRows(repr, cs), ByKey(KeyIn, WordsLe));
    assert row in multiset(Unranked(repr, cs));
    assert row in UnrankedRows(repr, cs);
    var k :| 0 <= k < |UnrankedRows(repr, cs)| && UnrankedRows(repr, cs)[k] == row;
    var c := Select(cs, NotRanked)[k];
    assert row == UnrankedRow(repr, c) && NotRanked(c);
    UnrankedEntry(repr, c);
  }

  lemma UnrankedEntry(repr: Float -> string, c: Candidate)
    ensures Entry(UnrankedRow(repr, c)) == c
  {
  }

  /** The audit list: by status text, then detail, then the two texts of the node. */
  lemma UnrankedByLevels(repr: Float -> string, cs: seq<Candidate>, i: nat, j: nat)
    requires i < j < |Unranked(repr, cs)|
    ensures var p, q := Unranked(repr, cs)[i], Unranked(repr, cs)[j];
            NotRankedBefore(repr, p.node, p.outcome, q.node, q.outcome)
  {
    hide WordsLe, Sort, UnrankedRows, UnrankedRow, NotRankedBefore, IsScored;
    UnrankedKeyed(repr, cs, i);
    UnrankedKeyed(repr, cs, j);
    SortedPermutations(repr, cs);
    UnrankedBefore(repr, Entry(Unranked(repr, cs)[i]), Entry(Unranked(repr, cs)[j]));
  }

  // ---------------------------------------------------------------------------
  // Rankings
  // ---------------------------------------------------------------------------

  /** A candidate that the ranking may take: scored and measured in finite numbers, or not scored at all. */
  ghost predicate Sound(c: Candidate) {
    if c.outcome.status == Scored then exists score, ms :: Weighs(c.node, c.outcome, score, ms)
    else c.outcome.score.None?
  }

  lemma SoundExactly(c: Candidate)
    ensures RefusalOf(c).None? <==> Sound(c)
  {
    if RefusalOf(c).None? && IsScored(c) {
      assert Weighs(c.node, c.outcome, c.outcome.score.value.r, c.node.measuredLatency.value.valueMs.value.r);
    }
  }

  /** A ranking is not refused for its candidates exactly when all of them are sound. */
  lemma AdmittedExactly(cs: seq<Candidate>)
    ensures Admitted(cs) <==> forall c | c in cs :: Sound(c)
  {
    forall c | c in cs ensures RefusalOf(c).None? <==> Sound(c) {
      SoundExactly(c);
    }
    hide RefusalOf, Sound;
  }

  lemma RankedSpelled(repr: Float -> string, cs: seq<Candidate>)
    ensures forall i | 0 <= i < |Ranked(repr, cs)| ::
              Entry(Ranked(repr, cs)[i]) in cs && Ranked(repr, cs)[i].outcome.status == Scored
    ensures Admitted(cs) ==> forall i, j | 0 <= i < j < |Ranked(repr, cs)| ::
                Outranks(repr, Ranked(repr, cs)[i].node, Ranked(repr, cs)[i].outcome, Ranked(repr, cs)[j].node,
                         Ranked(repr, cs)[j].outcome)
  {
    hide Outranks, Ranked, Admitted, RankedRow;
    forall i | 0 <= i < |Ranked(repr, cs)|
      ensures Entry(Ranked(repr, cs)[i]) in cs && Ranked(repr, cs)[i].outcome.status == Scored {
      RowsKeyed(repr, cs, i);
    }
    if Admitted(cs) {
      forall i, j | 0 <= i < j < |Ranked(repr, cs)|
        ensures Outranks(repr, Ranked(repr, cs)[i].node, Ranked(repr, cs)[i].outcome, Ranked(repr, cs)[j].node,
                         Ranked(repr, cs)[j].outcome) {
        RankedByLevels(repr, cs, i, j);
      }
    }
  }

  lemma UnrankedSpelled(repr: Float -> string, cs: seq<Candidate>)
    ensures forall i | 0 <= i < |Unranked(repr, cs)| ::
              Entry(Unranked(repr, cs)[i]) in cs && Unranked(repr, cs)[i].outcome.status != Scored
    ensures forall i, j | 0 <= i < j < |Unranked(repr, cs)| ::
              NotRankedBefore(repr, Unranked(repr, cs)[i].node, Unranked(repr, cs)[i].outcome,
                              Unranked(repr, cs)[j].node, Unranked(repr, cs)[j].outcome)
  {
    hide NotRankedBefore, Unranked, UnrankedRow;
    forall i | 0 <= i < |Unranked(repr, cs)|
      ensures Entry(Unranked(repr, cs)[i]) in cs && Unranked(repr, cs)[i].outcome.status != Scored {
      UnrankedKeyed(repr, cs, i);
    }
    forall i, j | 0 <= i < j < |Unranked(repr, cs)|
      ensures NotRankedBefore(repr, Unranked(repr, cs)[i].node, Unranked(repr, cs)[i].outcome,
                              Unranked(repr, cs)[j].node, Unranked(repr, cs)[j].outcome) {
      UnrankedByLevels(repr, cs, i, j);
    }
  }

  /**
   * A ranking of N in terms of its candidates: item `i` has rank `i + 1`, each item
   * outranks those after it, and the ranked and the unranked together, before the cut
   * at N, are as many as the candidates.
   */
  lemma RankingSpelled(repr: Float -> string, cs: seq<Candidate>, n: Option<int>)
    requires n.Some? ==> n.value > 0
    ensures var r := RankingOf(repr, cs, n);
            && |r.ranked| == (if n.Some? && n.value < r.totalRanked then n.value else r.totalRanked)
            && r.totalRanked + |r.unranked| == |cs| && r.requestedN == n
            && (forall i | 0 <= i < |r.ranked| ::
                  && r.ranked[i].rank == i + 1 && r.ranked[i].outcome.status == Scored
                  && Candidate(r.ranked[i].node, r.ranked[i].outcome) in cs)
            && (forall i | 0 <= i < |r.unranked| ::
                  && r.unranked[i].outcome.status != Scored
                  && Candidate(r.unranked[i].node, r.unranked[i].outcome) in cs)
            && (forall i, j | 0 <= i < j < |r.unranked| ::
                  NotRankedBefore(repr, r.unranked[i].node, r.unranked[i].outcome, r.unranked[j].node,
                                  r.unranked[j].outcome))
            && (Admitted(cs) ==> forall i, j | 0 <= i < j < |r.ranked| ::
                      Outranks(repr, r.ranked[i].node, r.ranked[i].outcome, r.ranked[j].node, r.ranked[j].outcome))
  {
    SharesAdd(repr, cs);
    RankedSpelled(repr, cs);
    UnrankedSpelled(repr, cs);
    hide Ranked, Unranked, Admitted, Outranks, NotRankedBefore;
  }

  lemma SharesAdd(repr: Float -> string, cs: seq<Candidate>)
    ensures |Ranked(repr, cs)| + |Unranked(repr, cs)| == |cs|
  {
    SortPermutes(RankedRows(repr, cs), ByKey(KeyIn, KeyLe));
    SortPermutes(UnrankedRows(repr, cs), ByKey(KeyIn, WordsLe));
    hide Sort, RankedRow, UnrankedRow, Select, KeyLe, WordsLe;
    Halves(cs);
  }

  lemma {:induction false} Halves(cs: seq<Candidate>)
    ensures |Select(cs, IsScored)| + |Select(cs, NotRanked)| == |cs|
  {
    if cs != [] {
      Halves(cs[1..]);
    }
  }

  /** Which fault a candidate is refused for: the first of these that it has. */
  lemma FaultsNamed(c: Candidate)
    ensures var s, o := c.node.measuredLatency, c.outcome;
            var scored := o.status == Scored;
            var number := o.score.Some? && o.score.value.Fin?;
            var measured := s.Some? && s.value.kind == MEASURED;
            var finite := measured && s.value.valueMs.Some? && s.value.valueMs.value.Fin?;
            && (RefusalOf(c) == Some(UnexpectedScore) <==> !scored && o.score.Some?)
            && (RefusalOf(c) == Some(NoNumericScore) <==> scored && o.score.None?)
            && (RefusalOf(c) == Some(NonFiniteScore) <==> scored && o.score.Some? && !number)
            && (RefusalOf(c) == Some(NoMeasuredLatency) <==> scored && number && s.None?)
            && (RefusalOf(c) == Some(NotMeasuredKind) <==> scored && number && s.Some? && !measured)
            && (RefusalOf(c) == Some(LatencyNotNumeric) <==> scored && number && measured && s.value.valueMs.None?)
            && (RefusalOf(c) == Some(LatencyNotFinite) <==>
                  scored && number && measured && s.value.valueMs.Some? && !finite)
            && (RefusalOf(c) == Some(LatencyNotPositive) <==>
                  scored && number && finite && s.value.valueMs.value.r <= 0.0)
  {
  }

  /** Which request is refused: an order or tie-break of another name, or an N below one. */
  lemma ComplaintsNamed(policy: RankingPolicy, n: Option<int>)
    ensures var named := policy.order == "score_desc" && policy.tieBreak == "measured_ms_asc";
            && (Complaint(policy, n).None? <==> named && (n.None? || n.value >= 1))
            && (policy.order != "score_desc" <==> Complaint(policy, n) == Some(UnsupportedOrder(policy.order)))
            && (policy.order == "score_desc" && !named <==>
                Complaint(policy, n) == Some(UnsupportedTieBreak(policy.tieBreak)))
            && (named && n.Some? && n.value < 1 ==> Complaint(policy, n) == Some(InvalidTopN(n.value)))
  {
  }
}