/** Which text of a link lands in which field of its node, for links composed from their parts. */
module LinkFields {
  import opened Common
  import opened Model
  import opened Text
  import opened Parsing
  import opened Renaming
  import opened Queries
  import opened LinkCuts
  import Encoding

  // ---------------------------------------------------------------------------
  // Parameters
  // ---------------------------------------------------------------------------

  /** Lower-casing brings no white space to the ends of a text. */
  ghost predicate CasingLawful(lib: UrlLib) {
    forall s | Stripped(s, lib.names.space) :: Stripped(lib.names.lower(s), lib.names.space)
  }

  /** Query names survive stripping behind `qp.`. */
  ghost predicate NamesTrim(lib: UrlLib, q: map<string, string>) {
    forall k | k in q :: Trimmed(lib, "qp." + k) == "qp." + k
  }

  ghost predicate NamesStripped(lib: UrlLib, q: map<string, string>) {
    forall k | k in q :: Stripped(k, lib.names.space)
  }

  lemma {:induction false} NamesStrip(lib: UrlLib, pairs: seq<Pair>, n: nat)
    requires Lawful(lib) && CasingLawful(lib) && n <= |pairs|
    ensures NamesStripped(lib, QueryOf(lib, pairs, n))
  {
    if n > 0 {
      NamesStrip(lib, pairs, n - 1);
      StripEnds(pairs[n - 1].0, lib.names.space);
      hide Strip;
      var k := NameOf(lib, pairs[n - 1]);
      assert Stripped(k, lib.names.space);
      assert (k + "[]")[|k| + 1] == ']' && (k != "" ==> (k + "[]")[0] == k[0]);
    }
  }

  lemma QpTrims(lib: UrlLib, k: string)
    requires Lawful(lib) && Stripped(k, lib.names.space)
    ensures Trimmed(lib, "qp." + k) == "qp." + k
  {
    assert ("qp." + k)[0] == 'q' && ("qp." + k)[|k| + 2] == if k == "" then '.' else k[|k| - 1];
    StripFix("qp." + k, lib.names.space);
  }

  lemma QueryNamesTrim(lib: UrlLib, query: string)
    requires Lawful(lib) && CasingLawful(lib)
    ensures NamesTrim(lib, ParsedQuery(lib, query))
  {
    NamesStrip(lib, ParseQsl(lib, query), |ParseQsl(lib, query)|);
    forall k | k in ParsedQuery(lib, query) ensures Trimmed(lib, "qp." + k) == "qp." + k {
      QpTrims(lib, k);
    }
    hide QueryOf, ParseQsl, Strip;
  }

  // ---------------------------------------------------------------------------
  // Fields
  // ---------------------------------------------------------------------------

  /** A field holds a text, normalised and cut at 4096 characters. */
  ghost predicate Holds(lib: UrlLib, field: string, text: string) {
    field == lib.nfc(if |text| > 4096 then text[..4096] else text)
  }

  /** The value of a parameter, or nothing. */
  function Value(q: map<string, string>, name: string): string {
    if name in q then q[name] else ""
  }

  /** A field holds a parameter if it is given and not empty, and is empty otherwise. */
  ghost predicate HoldsGiven(lib: UrlLib, field: string, q: map<string, string>, name: string) {
    if Value(q, name) != "" then Holds(lib, field, Value(q, name)) else field == ""
  }

  function Normal(lib: UrlLib, s: string): string {
    lib.names.lower(Strip(s, lib.names.space))
  }

  function TypeText(lib: UrlLib, q: map<string, string>): string {
    Normal(lib, if Value(q, "type") != "" then Value(q, "type") else Value(q, "net"))
  }

  /** Which words name which transport; `kcp` and any other word name none. */
  ghost predicate Carried(lib: UrlLib, t: Transport, text: string) {
    var word := Normal(lib, text);
    && (t == TCP <==> text != "kcp" && word in {"tcp", "raw"})
    && (t == WS <==> text != "kcp" && word in {"ws", "websocket", "httpupgrade"})
    && (t == GRPC <==> text != "kcp" && word in {"grpc", "gun"})
    && (t == XHTTP <==> text != "kcp" && word in {"xhttp", "splithttp"})
    && (t == HTTP2 <==> text != "kcp" && word in {"h2", "http"})
    && (t == QUIC <==> text != "kcp" && word == "quic")
  }

  /** Security: its own parameter if that is one of three words, else what the REALITY parameters imply. */
  ghost predicate Secured(lib: UrlLib, s: Security, q: map<string, string>) {
    var given := Value(q, "security");
    var text := Normal(lib, if given == "" && Value(q, "pbk") != "" then "reality" else given);
    var word := Normal(lib, text);
    if text in {"tls", "reality", "none"}
    then
      && (s == TLS <==> word == "tls") && (s == REALITY <==> word == "reality")
         && (s == NO_SECURITY <==> word == "none")
    else s == if Value(q, "pbk") != "" || Value(q, "sid") != "" then REALITY else UNKNOWN_SECURITY
  }

  function InsecureText(q: map<string, string>): string {
    if "allowinsecure" in q then q["allowinsecure"] else if "insecure" in q then q["insecure"] else "0"
  }

  /** The fields that every protocol takes from the query. */
  ghost predicate StreamRead(lib: UrlLib, n: Node, q: map<string, string>) {
    && Holds(lib, n.sni, Value(q, "sni")) && Holds(lib, n.alpn, Value(q, "alpn"))
       && Holds(lib, n.flow, Value(q, "flow"))
    && Holds(lib, n.fingerprint, if Value(q, "fp") != "" then Value(q, "fp") else Value(q, "fingerprint"))
    && (n.allowInsecure <==> lib.names.lower(InsecureText(q)) in {"1", "true", "yes"})
    && Carried(lib, n.transport, TypeText(lib, q)) && Secured(lib, n.security, q)
  }

  ghost predicate ServiceRead(lib: UrlLib, field: string, q: map<string, string>) {
    if lib.names.lower(Value(q, "type")) == "grpc" || Value(q, "servicename") != ""
    then Holds(lib, field, Value(q, "servicename")) else field == ""
  }

  /** The credentials of a node and nothing else of the kind. */
  ghost predicate Bears(n: Node, uuid: string, password: string, secret: string) {
    n.uuid == uuid && n.password == password && n.secret == secret
  }

  /** What every parser leaves: the dialled endpoint, the link itself, and nothing measured, located or named. */
  ghost predicate Fresh(n: Node, link: string, host: string, port: int) {
    && n.endpoint == Endpoint(host, port, None) && n.rawUrl == link && n.outputName == "" && n.score == Numbers.Fin(0.0)
    && n.tcpConnect.None? && n.protocolHandshake.None? && n.measuredLatency.None? && n.jitterMs.None? && n.geo.None?
  }

  // ---------------------------------------------------------------------------
  // Protocol fields
  // ---------------------------------------------------------------------------

  const KNOWN: set<string> :=
    {"type", "security", "sni", "alpn", "fp", "fingerprint", "flow", "allowinsecure", "insecure", "path", "host",
        "servicename"}

  /** A transport nobody recognises keeps its word. */
  ghost predicate RawKept(lib: UrlLib, n: Node, q: map<string, string>, name: string, v: string) {
    name == "transport.raw" && v == TypeText(lib, q) != "" && n.transport == UNKNOWN_TRANSPORT
  }

  /** A parameter kept under a field name of its own. */
  ghost predicate OwnKept(lib: UrlLib, q: map<string, string>, own: map<string, string>, name: string, v: string) {
    name in own && Value(q, own[name]) != "" && Holds(lib, v, Value(q, own[name]))
  }

  /** A parameter nobody knows, kept under `qp.`. */
  ghost predicate UnknownKept(q: map<string, string>, known: set<string>, name: string, v: string) {
    |name| >= 3 && name[..3] == "qp." && name[3..] in q && name[3..] !in known && v == q[name[3..]]
  }

  /** Field names in strictly ascending order. */
  ghost predicate Ascending(fields: seq<(string, string)>) {
    forall i, j | 0 <= i < j < |fields| :: TextLe(fields[i].0, fields[j].0) && fields[i].0 != fields[j].0
  }

  /** Exactly these fields, in order. */
  ghost predicate FieldsKept(lib: UrlLib, n: Node, q: map<string, string>, own: map<string, string>,
                             known: set<string>) {
    && Ascending(n.protocolFields)
    && (forall name, v :: (name, v) in n.protocolFields <==>
            RawKept(lib, n, q, name, v) || OwnKept(lib, q, own, name, v) || UnknownKept(q, known, name, v))
  }

  lemma {:induction false} ItemsAre(m: map<string, string>)
    ensures forall k, v :: (k, v) in SortedItems(m) <==> k in m && m[k] == v
    ensures Ascending(SortedItems(m))
    decreases m.Keys
  {
    if m != map[] {
      var items := SortedItems(m);
      var first := items[0].0;
      var rest := m - {first};
      assert first in m && items == [(first, m[first])] + SortedItems(rest);
      assert forall x | x in m :: TextLe(first, x);
      ItemsAre(rest);
      hide SortedItems, TextLe;
      forall k, v ensures (k, v) in items <==> k in m && m[k] == v {
        assert items[1..] == SortedItems(rest);
        assert (k, v) in items <==> (k, v) == items[0] || (k, v) in items[1..];
      }
      forall i, j | 0 <= i < j < |items| ensures TextLe(items[i].0, items[j].0) && items[i].0 != items[j].0 {
        assert items[j] == SortedItems(rest)[j - 1] && items[j] in SortedItems(rest);
        assert (items[j].0, items[j].1) in SortedItems(rest);
        if i > 0 {
          assert items[i] == SortedItems(rest)[i - 1];
        }
      }
    }
  }

  /** A dictionary of fields whose keys survive stripping. */
  ghost predicate Plain(lib: UrlLib, pf: map<string, string>) {
    forall k | k in pf :: k != "" && Trimmed(lib, k) == k
  }

  /** Keys that survive stripping become the node's fields as they are. */
  lemma FieldsAre(lib: UrlLib, pf: map<string, string>)
    requires Plain(lib, pf)
    ensures CanonicalFields(lib, pf).Some? && Ascending(CanonicalFields(lib, pf).value)
    ensures forall k, v :: (k, v) in CanonicalFields(lib, pf).value <==> k in pf && pf[k] == v
  {
    PlainKeys(lib, pf);
    hide CanonicalFields, SortedItems, Ascending;
    ItemsAre(pf);
  }

  // ---------------------------------------------------------------------------
  // What the dictionaries hold
  // ---------------------------------------------------------------------------

  ghost predicate Maps(pf: map<string, string>, name: string, v: string) {
    name in pf && pf[name] == v
  }

  lemma RawMaps(lib: UrlLib, n: Node, q: map<string, string>)
    requires Lawful(lib) && n.transport == TransportFrom(lib, q)
    ensures forall name, v :: Maps(RawTransport(lib, q), name, v) <==> RawKept(lib, n, q, name, v)
    ensures Plain(lib, RawTransport(lib, q))
    ensures forall name | name in RawTransport(lib, q) :: name == "transport.raw"
  {
    NameFixed(lib, "transport.raw");
    assert TypeText(lib, q) == RawType(lib, q);
    hide RawType, TypeText, TransportFrom, Strip;
  }

  lemma UnknownMaps(lib: UrlLib, q: map<string, string>, known: set<string>)
    requires NamesTrim(lib, q)
    ensures forall name, v :: Maps(Unknown(q, known), name, v) <==> UnknownKept(q, known, name, v)
    ensures Plain(lib, Unknown(q, known))
    ensures forall name | name in Unknown(q, known) :: |name| >= 3 && name[..3] == "qp."
  {
    hide Strip;
    var pf := Unknown(q, known);
    forall name, v ensures Maps(pf, name, v) <==> UnknownKept(q, known, name, v) {
      if |name| >= 3 && name[..3] == "qp." {
        assert name == "qp." + name[3..];
      }
      if name in pf {
        var k :| k in q && k !in known && name == "qp." + k;
        assert name[3..] == k && name[..3] == "qp.";
      }
    }
    forall name | name in pf ensures |name| >= 3 && name[..3] == "qp." && Trimmed(lib, name) == name {
      var k :| k in q && name == "qp." + k;
      assert name[..3] == "qp.";
    }
  }

  lemma RecordedMaps(lib: UrlLib, pf: map<string, string>, q: map<string, string>, k: string, name: string)
    requires Lawful(lib) && Plain(lib, pf) && name != "" && '!' <= name[0] <= '~' && '!' <= name[|name| - 1] <= '~'
    ensures var r := Recorded(lib, pf, q, k, name);
            && Plain(lib, r)
            && (forall x, v :: Maps(r, x, v) <==>
                    if x == name && Value(q, k) != "" then Holds(lib, v, Value(q, k)) else Maps(pf, x, v))
            && (forall x | x in r :: x in pf || x == name)
  {
    NameFixed(lib, name);
    hide Strip;
  }

  /** A dictionary holds the transport's raw word and parameters kept under names of their own. */
  ghost predicate Owns(lib: UrlLib, n: Node, q: map<string, string>, pf: map<string, string>,
                       own: map<string, string>) {
    && Plain(lib, pf) && NoQp(pf)
    && (forall name, v :: Maps(pf, name, v) <==> RawKept(lib, n, q, name, v) || OwnKept(lib, q, own, name, v))
  }

  lemma RawOwns(lib: UrlLib, n: Node, q: map<string, string>)
    requires Lawful(lib) && n.transport == TransportFrom(lib, q)
    ensures Owns(lib, n, q, RawTransport(lib, q), map[])
  {
    RawMaps(lib, n, q);
    hide RawTransport, RawKept, Plain, Maps, TransportFrom;
  }

  lemma RecordedOwns(lib: UrlLib, n: Node, q: map<string, string>, pf: map<string, string>, own: map<string, string>,
                     k: string, name: string)
    requires Lawful(lib) && Owns(lib, n, q, pf, own) && name !in own && name != "transport.raw"
    requires name != "" && '!' <= name[0] <= '~' && name[0] != 'q' && '!' <= name[|name| - 1] <= '~'
    ensures Owns(lib, n, q, Recorded(lib, pf, q, k, name), own[name := k])
  {
    RecordedMaps(lib, pf, q, k, name);
    hide Recorded, Plain, Maps, Holds, Value, TypeText, Lawful;
    var r := Recorded(lib, pf, q, k, name);
    forall x, v ensures Maps(r, x, v) <==> RawKept(lib, n, q, x, v) || OwnKept(lib, q, own[name := k], x, v) {
      assert Maps(pf, x, v) <==> RawKept(lib, n, q, x, v) || OwnKept(lib, q, own, x, v);
    }
  }

  ghost predicate NoQp(pf: map<string, string>) {
    forall name | name in pf :: name != "" && name[0] != 'q'
  }

  lemma SumMaps(lib: UrlLib, a: map<string, string>, b: map<string, string>)
    requires Plain(lib, a) && Plain(lib, b) && NoQp(a) && forall name | name in b :: |name| >= 3 && name[..3] == "qp."
    ensures Plain(lib, a + b) && forall name, v :: Maps(a + b, name, v) <==> Maps(a, name, v) || Maps(b, name, v)
    ensures a + b == b + a
  {
    hide Strip;
  }

  /** The node constructor keeps the protocol's own fields and the unknown parameters. */
  lemma FieldsRead(lib: UrlLib, n: Node, q: map<string, string>, pf: map<string, string>, own: map<string, string>,
                   known: set<string>)
    requires NamesTrim(lib, q) && Owns(lib, n, q, pf, own)
    ensures var r := WithFields(lib, n, pf + Unknown(q, known));
            && r.Ok? && r.value == n.(protocolFields := r.value.protocolFields)
            && FieldsKept(lib, r.value, q, own, known)
    ensures pf + Unknown(q, known) == Unknown(q, known) + pf
  {
    UnknownMaps(lib, q, known);
    SumMaps(lib, pf, Unknown(q, known));
    hide Strip, Unknown, CanonicalFields, RawKept, OwnKept, UnknownKept, Ascending, NamesTrim, NoQp;
    var all := pf + Unknown(q, known);
    FieldsAre(lib, all);
    var r := WithFields(lib, n, all).value;
    assert forall name, v :: RawKept(lib, r, q, name, v) <==> RawKept(lib, n, q, name, v) by {
      assert r.transport == n.transport;
    }
    forall name, v ensures (name, v) in r.protocolFields <==>
        RawKept(lib, r, q, name, v) || OwnKept(lib, q, own, name, v) || UnknownKept(q, known, name, v) {
      assert Maps(all, name, v) <==> name in all && all[name] == v;
    }
  }

  lemma OptionalReads(lib: UrlLib, q: map<string, string>, k: string)
    ensures HoldsGiven(lib, Optional(lib, q, k), q, k)
  {
  }

  lemma ServiceReads(lib: UrlLib, q: map<string, string>)
    ensures ServiceRead(lib, ServiceName(lib, q), q)
  {
  }

  lemma OwnsByTransport(lib: UrlLib, n: Node, m: Node, q: map<string, string>, pf: map<string, string>,
                        own: map<string, string>)
    requires Owns(lib, n, q, pf, own) && m.transport == n.transport
    ensures Owns(lib, m, q, pf, own)
  {
  }

  lemma StreamedReads(lib: UrlLib, n: Node, q: map<string, string>)
    ensures var r := Streamed(lib, n, q);
            && StreamRead(lib, r, q) && r.transport == TransportFrom(lib, q)
            && r == n.(transport := r.transport, security := r.security, sni := r.sni, alpn := r.alpn,
                       fingerprint := r.fingerprint, flow := r.flow, allowInsecure := r.allowInsecure)
  {
    CarriedAs(lib, q);
    SecuredAs(lib, q);
    hide TransportFrom, SecurityFrom, Carried, Secured, Strip;
  }

  lemma CarriedAs(lib: UrlLib, q: map<string, string>)
    ensures Carried(lib, TransportFrom(lib, q), TypeText(lib, q))
  {
    hide Strip;
  }

  lemma SecuredAs(lib: UrlLib, q: map<string, string>)
    ensures Secured(lib, SecurityFrom(lib, q), q)
  {
    hide Strip;
  }

  // ---------------------------------------------------------------------------
  // The protocols
  // ---------------------------------------------------------------------------

  const VLESS_OWN: map<string, string> :=
    map["vless.reality.pubkey" := "pbk", "vless.reality.shortid" := "sid", "vless.reality.spx" := "spx"]

  const VLESS_KNOWN: set<string> := KNOWN + {"pbk", "sid", "spx"}

  /** Everything a vless link says, where the node keeps it. */
  ghost predicate VlessRead(lib: UrlLib, n: Node, link: string, uuid: string, host: string, port: int,
                            q: map<string, string>) {
    && n.protocol == VLESS && Bears(n, uuid, "", "") && Fresh(n, link, host, port) && StreamRead(lib, n, q)
    && HoldsGiven(lib, n.path, q, "path") && HoldsGiven(lib, n.hostHeader, q, "host")
       && ServiceRead(lib, n.serviceName, q)
    && FieldsKept(lib, n, q, VLESS_OWN, VLESS_KNOWN)
  }

  function VlessOwn(lib: UrlLib, q: map<string, string>): map<string, string> {
    Recorded(lib, Recorded(lib, Recorded(lib, RawTransport(lib, q), q, "pbk", "vless.reality.pubkey"),
                           q, "sid", "vless.reality.shortid"), q, "spx", "vless.reality.spx")
  }

  lemma VlessOwns(lib: UrlLib, n: Node, q: map<string, string>)
    requires Lawful(lib) && n.transport == TransportFrom(lib, q)
    ensures Owns(lib, n, q, VlessOwn(lib, q), VLESS_OWN)
  {
    var raw := RawTransport(lib, q);
    var a := Recorded(lib, raw, q, "pbk", "vless.reality.pubkey");
    var b := Recorded(lib, a, q, "sid", "vless.reality.shortid");
    hide Owns, Recorded, RawTransport, Lawful, TransportFrom;
    RawOwns(lib, n, q);
    RecordedOwns(lib, n, q, raw, map[], "pbk", "vless.reality.pubkey");
    RecordedOwns(lib, n, q, a, map["vless.reality.pubkey" := "pbk"], "sid", "vless.reality.shortid");
    RecordedOwns(lib, n, q, b, map["vless.reality.pubkey" := "pbk", "vless.reality.shortid" := "sid"],
                 "spx", "vless.reality.spx");
  }

  lemma VlessNodeAs(lib: UrlLib, url: string, uuid: string, ep: Endpoint, q: map<string, string>)
    ensures VlessNode(lib, url, uuid, ep, q)
            == WithFields(lib, Streamed(lib, FreshNode(VLESS, ep, url).(uuid := uuid), q).(
                                 serviceName := ServiceName(lib, q), path := Optional(lib, q, "path"),
                                 hostHeader := Optional(lib, q, "host")),
                          VlessOwn(lib, q) + Unknown(q, VLESS_KNOWN))
  {
    assert STREAM_PARAMS + {"pbk", "sid", "spx"} == VLESS_KNOWN;
    hide Streamed, Recorded, WithFields, Unknown, ServiceName, RawTransport, Optional;
  }

  lemma VlessNodeReads(lib: UrlLib, url: string, uuid: string, ep: Endpoint, q: map<string, string>)
    requires Lawful(lib) && NamesTrim(lib, q) && ep.resolvedIp.None?
    ensures VlessNode(lib, url, uuid, ep, q).Ok?
    ensures VlessRead(lib, VlessNode(lib, url, uuid, ep, q).value, url, uuid, ep.host, ep.port, q)
  {
    hide VlessNode, Streamed, WithFields, FieldsKept, Owns, VlessOwn, Unknown, Lawful, NamesTrim, ServiceName, Optional,
         TransportFrom, Holds, HoldsGiven, ServiceRead, Carried, Secured, InsecureText, Value;
    VlessNodeAs(lib, url, uuid, ep, q);
    var blank := FreshNode(VLESS, ep, url).(uuid := uuid);
    var n := Streamed(lib, blank, q);
    var m := n.(serviceName := ServiceName(lib, q), path := Optional(lib, q, "path"),
                hostHeader := Optional(lib, q, "host"));
    StreamedReads(lib, blank, q);
    VlessOwns(lib, n, q);
    OptionalReads(lib, q, "path");
    OptionalReads(lib, q, "host");
    ServiceReads(lib, q);
    assert Owns(lib, m, q, VlessOwn(lib, q), VLESS_OWN) by {
      OwnsByTransport(lib, n, m, q, VlessOwn(lib, q), VLESS_OWN);
    }
    FieldsRead(lib, m, q, VlessOwn(lib, q), VLESS_OWN, VLESS_KNOWN);
  }

  ghost predicate TrojanRead(lib: UrlLib, n: Node, link: string, password: string, host: string, port: int,
                             q: map<string, string>) {
    && n.protocol == TROJAN && Bears(n, "", password, "") && Fresh(n, link, host, port) && StreamRead(lib, n, q)
    && HoldsGiven(lib, n.path, q, "path") && HoldsGiven(lib, n.hostHeader, q, "host")
    && ServiceRead(lib, n.serviceName, q) && FieldsKept(lib, n, q, map[], KNOWN)
  }

  lemma TrojanNodeAs(lib: UrlLib, url: string, password: string, ep: Endpoint, q: map<string, string>)
    ensures TrojanNode(lib, url, password, ep, q)
            == WithFields(lib, Streamed(lib, FreshNode(TROJAN, ep, url).(password := password), q).(
                                 serviceName := ServiceName(lib, q), path := Optional(lib, q, "path"),
                                 hostHeader := Optional(lib, q, "host")),
                          RawTransport(lib, q) + Unknown(q, KNOWN))
  {
    assert STREAM_PARAMS == KNOWN;
    hide Streamed, WithFields, Unknown, ServiceName, RawTransport, Optional;
  }

  lemma TrojanNodeReads(lib: UrlLib, url: string, password: string, ep: Endpoint, q: map<string, string>)
    requires Lawful(lib) && NamesTrim(lib, q) && ep.resolvedIp.None?
    ensures TrojanNode(lib, url, password, ep, q).Ok?
    ensures TrojanRead(lib, TrojanNode(lib, url, password, ep, q).value, url, password, ep.host, ep.port, q)
  {
    hide TrojanNode, Streamed, WithFields, FieldsKept, Owns, RawTransport, Unknown, Lawful, NamesTrim, ServiceName,
         Optional,
         TransportFrom, Holds, HoldsGiven, ServiceRead, Carried, Secured, InsecureText, Value;
    TrojanNodeAs(lib, url, password, ep, q);
    var blank := FreshNode(TROJAN, ep, url).(password := password);
    var n := Streamed(lib, blank, q);
    var m := n.(serviceName := ServiceName(lib, q), path := Optional(lib, q, "path"),
                hostHeader := Optional(lib, q, "host"));
    StreamedReads(lib, blank, q);
    RawOwns(lib, m, q);
    OptionalReads(lib, q, "path");
    OptionalReads(lib, q, "host");
    ServiceReads(lib, q);
    FieldsRead(lib, m, q, RawTransport(lib, q), map[], KNOWN);
  }

  ghost predicate SocksRead(lib: UrlLib, n: Node, link: string, user: string, password: string, host: string, port: int,
                            q: map<string, string>) {
    && n.protocol == SOCKS5 && Bears(n, "", password, user) && Fresh(n, link, host, port) && StreamRead(lib, n, q)
    && n.path == "" && n.hostHeader == "" && n.serviceName == "" && FieldsKept(lib, n, q, map[], KNOWN)
  }

  lemma SocksNodeAs(lib: UrlLib, url: string, user: string, pwd: string, ep: Endpoint, q: map<string, string>)
    ensures SocksNode(lib, url, user, pwd, ep, q)
            == WithFields(lib, Streamed(lib, FreshNode(SOCKS5, ep, url).(password := if user != "" then pwd else "",
                                                                         secret := user), q),
                          RawTransport(lib, q) + Unknown(q, KNOWN))
  {
    assert STREAM_PARAMS == KNOWN;
    hide Streamed, WithFields, Unknown, RawTransport;
  }

  lemma SocksNodeReads(lib: UrlLib, url: string, user: string, pwd: string, ep: Endpoint, q: map<string, string>)
    requires Lawful(lib) && NamesTrim(lib, q) && ep.resolvedIp.None?
    ensures SocksNode(lib, url, user, pwd, ep, q).Ok?
    ensures SocksRead(lib, SocksNode(lib, url, user, pwd, ep, q).value, url, user, if user != "" then pwd else "",
                      ep.host, ep.port, q)
  {
    hide SocksNode, Streamed, WithFields, FieldsKept, Owns, RawTransport, Unknown, Lawful, NamesTrim, ServiceName,
         Optional,
         TransportFrom, Holds, HoldsGiven, ServiceRead, Carried, Secured, InsecureText, Value;
    SocksNodeAs(lib, url, user, pwd, ep, q);
    var blank := FreshNode(SOCKS5, ep, url).(password := if user != "" then pwd else "", secret := user);
    var n := Streamed(lib, blank, q);
    StreamedReads(lib, blank, q);
    RawOwns(lib, n, q);
    FieldsRead(lib, n, q, RawTransport(lib, q), map[], KNOWN);
  }

  /** The obfuscation password counts only beside an obfuscation. */
  function Hysteria2Named(q: map<string, string>): map<string, string> {
    (if Value(q, "obfs") != "" then map["hy2.obfs" := "obfs", "hy2.obfs.password" := "obfs-password"] else map[])
    + map["hy2.pinSHA256" := "pinSHA256"]
  }

  const HYSTERIA2_KNOWN: set<string> := KNOWN + {"obfs", "obfs-password", "pinSHA256"}

  ghost predicate Hysteria2Read(lib: UrlLib, n: Node, link: string, password: string, host: string, port: int,
                                q: map<string, string>) {
    && n.protocol == HYSTERIA2 && Bears(n, "", password, "") && Fresh(n, link, host, port) && StreamRead(lib, n, q)
    && HoldsGiven(lib, n.path, q, "path") && n.hostHeader == "" && n.serviceName == ""
    && FieldsKept(lib, n, q, Hysteria2Named(q), HYSTERIA2_KNOWN)
  }

  function Hysteria2Own(lib: UrlLib, q: map<string, string>): map<string, string> {
    var obfs := Recorded(lib, RawTransport(lib, q), q, "obfs", "hy2.obfs");
    var secret := if Value(q, "obfs") != "" then Recorded(lib, obfs, q, "obfs-password", "hy2.obfs.password") else obfs;
    Recorded(lib, secret, q, "pinSHA256", "hy2.pinSHA256")
  }

  lemma Hysteria2Owns(lib: UrlLib, n: Node, q: map<string, string>)
    requires Lawful(lib) && n.transport == TransportFrom(lib, q)
    ensures Owns(lib, n, q, Hysteria2Own(lib, q), Hysteria2Named(q))
  {
    RawOwns(lib, n, q);
    if Value(q, "obfs") != "" {
      ObfuscatedOwns(lib, n, q);
    } else {
      hide Owns, RawTransport, Lawful, TransportFrom, Holds, SafeStr;
      var raw := RawTransport(lib, q);
      assert Recorded(lib, raw, q, "obfs", "hy2.obfs") == raw;
      RecordedOwns(lib, n, q, raw, map[], "pinSHA256", "hy2.pinSHA256");
      assert map[]["hy2.pinSHA256" := "pinSHA256"] == Hysteria2Named(q);
    }
  }

  lemma ObfuscatedOwns(lib: UrlLib, n: Node, q: map<string, string>)
    requires Lawful(lib) && Value(q, "obfs") != "" && Owns(lib, n, q, RawTransport(lib, q), map[])
    ensures Owns(lib, n, q, Hysteria2Own(lib, q), Hysteria2Named(q))
  {
    hide Owns, Recorded, RawTransport, Lawful, Value;
    var raw := RawTransport(lib, q);
    var obfs := Recorded(lib, raw, q, "obfs", "hy2.obfs");
    var secret := Recorded(lib, obfs, q, "obfs-password", "hy2.obfs.password");
    RecordedOwns(lib, n, q, raw, map[], "obfs", "hy2.obfs");
    RecordedOwns(lib, n, q, obfs, map["hy2.obfs" := "obfs"], "obfs-password", "hy2.obfs.password");
    RecordedOwns(lib, n, q, secret, map["hy2.obfs" := "obfs", "hy2.obfs.password" := "obfs-password"],
                 "pinSHA256", "hy2.pinSHA256");
    assert map["hy2.obfs" := "obfs", "hy2.obfs.password" := "obfs-password"]["hy2.pinSHA256" := "pinSHA256"]
           == Hysteria2Named(q);
  }

  /** Recording a parameter commutes with adding fields of other names. */
  lemma RecordedSum(lib: UrlLib, pf: map<string, string>, raw: map<string, string>, q: map<string, string>, k: string,
                    name: string)
    requires name !in raw
    ensures Recorded(lib, pf + raw, q, k, name) == Recorded(lib, pf, q, k, name) + raw
  {
    hide SafeStr;
  }

  lemma Hysteria2NodeAs(lib: UrlLib, url: string, auth: string, ep: Endpoint, q: map<string, string>)
    requires Lawful(lib) && NamesTrim(lib, q)
    ensures Hysteria2Node(lib, url, auth, ep, q)
            == WithFields(lib, Streamed(lib, FreshNode(HYSTERIA2, ep, url).(password := auth), q).(
                                 path := Optional(lib, q, "path")),
                          Hysteria2Own(lib, q) + Unknown(q, HYSTERIA2_KNOWN))
  {
    var raw, none: map<string, string> := RawTransport(lib, q), map[];
    var obfs := Recorded(lib, none, q, "obfs", "hy2.obfs");
    var secret := if Get(q, "obfs") != "" then Recorded(lib, obfs, q, "obfs-password", "hy2.obfs.password") else obfs;
    var pin := Recorded(lib, secret, q, "pinSHA256", "hy2.pinSHA256");
    assert none + raw == raw;
    assert forall name | name in raw :: name == "transport.raw";
    RecordedSum(lib, none, raw, q, "obfs", "hy2.obfs");
    RecordedSum(lib, obfs, raw, q, "obfs-password", "hy2.obfs.password");
    RecordedSum(lib, secret, raw, q, "pinSHA256", "hy2.pinSHA256");
    assert Value(q, "obfs") == Get(q, "obfs");
    hide Recorded, RawTransport, Get, Value;
    assert Hysteria2Own(lib, q) == pin + raw;
    UnknownMaps(lib, q, HYSTERIA2_KNOWN);
    assert STREAM_PARAMS + {"obfs", "obfs-password", "pinSHA256"} == HYSTERIA2_KNOWN;
    SumSwap(pin, Unknown(q, HYSTERIA2_KNOWN), raw);
    hide Streamed, WithFields, Unknown, Optional, Hysteria2Own, Lawful, NamesTrim;
  }

  lemma SumSwap(a: map<string, string>, b: map<string, string>, c: map<string, string>)
    requires forall k | k in b :: k !in c
    ensures a + b + c == a + c + b
  {
  }

  lemma Hysteria2NodeReads(lib: UrlLib, url: string, auth: string, ep: Endpoint, q: map<string, string>)
    requires Lawful(lib) && NamesTrim(lib, q) && ep.resolvedIp.None?
    ensures Hysteria2Node(lib, url, auth, ep, q).Ok?
    ensures Hysteria2Read(lib, Hysteria2Node(lib, url, auth, ep, q).value, url, auth, ep.host, ep.port, q)
  {
    hide Hysteria2Node, Streamed, WithFields, FieldsKept, Owns, Hysteria2Own, Hysteria2Named, Unknown, Lawful,
         NamesTrim, Optional, TransportFrom, Holds, HoldsGiven, Carried, Secured, InsecureText, Value;
    Hysteria2NodeAs(lib, url, auth, ep, q);
    var blank := FreshNode(HYSTERIA2, ep, url).(password := auth);
    var n := Streamed(lib, blank, q);
    var m := n.(path := Optional(lib, q, "path"));
    StreamedReads(lib, blank, q);
    Hysteria2Owns(lib, m, q);
    OptionalReads(lib, q, "path");
    FieldsRead(lib, m, q, Hysteria2Own(lib, q), Hysteria2Named(q), HYSTERIA2_KNOWN);
  }

  /** Exactly the method, the password, the plugin if there is one, and the raw word of an unknown transport. */
  ghost predicate CipherKept(lib: UrlLib, n: Node, q: map<string, string>, cipher: string, password: string) {
    && Ascending(n.protocolFields)
    && (forall name, v :: (name, v) in n.protocolFields <==>
            || (name == "ss.method" && v == if cipher != "" then cipher else "unknown")
            || (name == "ss.password" && v == password)
            || (name == "ss.plugin" && Value(q, "plugin") != "" && Holds(lib, v, Value(q, "plugin")))
            || RawKept(lib, n, q, name, v))
  }

  ghost predicate SsRead(lib: UrlLib, n: Node, link: string, cipher: string, password: string, host: string, port: int,
                         q: map<string, string>) {
    && n.protocol == SHADOWSOCKS && Bears(n, "", "", "") && Fresh(n, link, host, port) && StreamRead(lib, n, q)
    && HoldsGiven(lib, n.path, q, "path") && n.hostHeader == "" && CipherKept(lib, n, q, cipher, password)
  }

  function SsOwn(lib: UrlLib, cred: (string, string), q: map<string, string>): map<string, string> {
    Recorded(lib, map["ss.method" := if cred.0 != "" then cred.0 else "unknown", "ss.password" := cred.1],
             q, "plugin", "ss.plugin") + RawTransport(lib, q)
  }

  lemma SsNodeAs(lib: UrlLib, url: string, cred: (string, string), ep: Endpoint, q: map<string, string>, sip002: bool)
    ensures SsNode(lib, url, cred, ep, q, "", sip002)
            == WithFields(lib, Streamed(lib, FreshNode(SHADOWSOCKS, ep, url), q).(
                                 serviceName := if sip002 then ServiceName(lib, q) else "",
                                 path := Optional(lib, q, "path")),
                          SsOwn(lib, cred, q))
  {
    hide Streamed, WithFields, ServiceName, RawTransport, Optional, Recorded;
  }

  ghost predicate CipherGiven(lib: UrlLib, q: map<string, string>, cred: (string, string), name: string, v: string) {
    || (name == "ss.method" && v == if cred.0 != "" then cred.0 else "unknown")
    || (name == "ss.password" && v == cred.1)
    || (name == "ss.plugin" && Value(q, "plugin") != "" && Holds(lib, v, Value(q, "plugin")))
  }

  lemma CipherMaps(lib: UrlLib, cred: (string, string), q: map<string, string>)
    requires Lawful(lib)
    ensures var pf := Recorded(lib, map["ss.method" := if cred.0 != "" then cred.0 else "unknown",
                                        "ss.password" := cred.1], q, "plugin", "ss.plugin");
            && Plain(lib, pf) && "transport.raw" !in pf
            && forall name, v :: Maps(pf, name, v) <==> CipherGiven(lib, q, cred, name, v)
  {
    var base := map["ss.method" := if cred.0 != "" then cred.0 else "unknown", "ss.password" := cred.1];
    assert Plain(lib, base) by {
      NameFixed(lib, "ss.method");
      NameFixed(lib, "ss.password");
      hide Strip;
    }
    RecordedMaps(lib, base, q, "plugin", "ss.plugin");
    hide Strip, Holds, Value, Recorded, Lawful;
  }

  lemma SsMaps(lib: UrlLib, n: Node, cred: (string, string), q: map<string, string>)
    requires Lawful(lib) && n.transport == TransportFrom(lib, q)
    ensures Plain(lib, SsOwn(lib, cred, q))
    ensures forall name, v :: Maps(SsOwn(lib, cred, q), name, v) <==>
                              CipherGiven(lib, q, cred, name, v) || RawKept(lib, n, q, name, v)
  {
    RawMaps(lib, n, q);
    CipherMaps(lib, cred, q);
    hide Strip, TransportFrom, Recorded, RawTransport, Lawful, RawKept, CipherGiven;
  }

  lemma SsNodeReads(lib: UrlLib, url: string, cred: (string, string), ep: Endpoint, q: map<string, string>,
                    sip002: bool)
    requires Lawful(lib) && ep.resolvedIp.None?
    ensures SsNode(lib, url, cred, ep, q, "", sip002).Ok?
    ensures var n := SsNode(lib, url, cred, ep, q, "", sip002).value;
            && SsRead(lib, n, url, cred.0, cred.1, ep.host, ep.port, q)
            && if sip002 then ServiceRead(lib, n.serviceName, q) else n.serviceName == ""
  {
    hide SsNode, Streamed, SsOwn, Lawful, ServiceName, Optional, TransportFrom, Holds, HoldsGiven, ServiceRead, Carried,
         Secured, InsecureText, Value, TypeText, CanonicalFields, Plain, Ascending;
    SsNodeAs(lib, url, cred, ep, q, sip002);
    var blank := FreshNode(SHADOWSOCKS, ep, url);
    var n := Streamed(lib, blank, q);
    var m := n.(serviceName := if sip002 then ServiceName(lib, q) else "", path := Optional(lib, q, "path"));
    StreamedReads(lib, blank, q);
    OptionalReads(lib, q, "path");
    ServiceReads(lib, q);
    SsMaps(lib, m, cred, q);
    FieldsAre(lib, SsOwn(lib, cred, q));
    var r := m.(protocolFields := CanonicalFields(lib, SsOwn(lib, cred, q)).value);
    assert SsNode(lib, url, cred, ep, q, "", sip002) == Ok(r);
    CipherReads(lib, r, cred, q);
    hide CipherKept;
  }

  lemma CipherReads(lib: UrlLib, n: Node, cred: (string, string), q: map<string, string>)
    requires Lawful(lib) && n.transport == TransportFrom(lib, q) && Ascending(n.protocolFields)
    requires var pf := SsOwn(lib, cred, q);
             forall name, v :: (name, v) in n.protocolFields <==> name in pf && pf[name] == v
    ensures CipherKept(lib, n, q, cred.0, cred.1)
  {
    SsMaps(lib, n, cred, q);
    hide SsOwn, Ascending, RawKept, Holds, Value, Lawful, TransportFrom, Plain;
    forall name, v ensures (name, v) in n.protocolFields <==>
                           CipherGiven(lib, q, cred, name, v) || RawKept(lib, n, q, name, v) {
      assert Maps(SsOwn(lib, cred, q), name, v) <==> (name, v) in n.protocolFields;
    }
  }
}
