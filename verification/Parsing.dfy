/** The configuration parsers, and what a link's configuration identity depends on. */
module Parsing {
  import opened Common
  import opened Numbers
  import opened Model
  import opened Text
  import opened Sorting
  import Encoding

  datatype ParseError = Malformed | LengthLimit | UnsupportedScheme

  /**
   * Library facts: names, integers, NFC, percent-decoding, `urlsplit`'s checks on the
   * network location, UTF-8 decoding with replacement, and the vmess JSON reader.
   */
  datatype UrlLib = UrlLib(
    names: NameLib,
    nfc: string -> string,
    parseInt: string -> Option<int>,
    netlocOk: string -> bool,
    decode: seq<byte> -> string,
    vmess: string -> Option<Node>)

  const MAX_URL_LEN := 8192
  const MAX_SECRET_LEN := 4096
  const MAX_HOST_LEN := 253

  function Lower(lib: UrlLib, s: string): string {
    lib.names.lower(s)
  }

  function Trimmed(lib: UrlLib, s: string): string {
    Strip(s, lib.names.space)
  }

  function SafeStr(lib: UrlLib, s: string): string {
    lib.nfc(if |s| > MAX_SECRET_LEN then s[..MAX_SECRET_LEN] else s)
  }

  function PercentDecode(lib: UrlLib, s: string): string {
    if s == "" then "" else lib.names.unquote(s)
  }

  // ---------------------------------------------------------------------------
  // Cutting text
  // ---------------------------------------------------------------------------

  /** The part before the first character that stops. */
  function UpTo(s: string, stop: char -> bool): (r: string)
    ensures |r| <= |s| && s[..|r|] == r && (|r| < |s| ==> stop(s[|r|]))
  {
    if s == "" || stop(s[0]) then "" else [s[0]] + UpTo(s[1..], stop)
  }

  lemma {:induction false} UpToCut(a: string, c: char, b: string, stop: char -> bool)
    requires stop(c)
    ensures UpTo(a + [c] + b, stop) == UpTo(a, stop)
  {
    if a == "" {
      assert (a + [c] + b)[0] == c;
    } else {
      assert (a + [c] + b)[0] == a[0] && (a + [c] + b)[1..] == a[1..] + [c] + b;
      UpToCut(a[1..], c, b, stop);
    }
  }

  /** `s.find(sub)`. */
  function Find(s: string, sub: string): (k: Option<nat>)
    ensures k.Some? ==> k.value + |sub| <= |s|
  {
    if StartsWith(s, sub) then Some(0)
    else if s == "" then None
    else
      match Find(s[1..], sub)
      case None => None
      case Some(k) => Some(k + 1)
  }

  lemma {:induction false} FindAppend(a: string, b: string, sub: string)
    requires Find(a, sub).Some?
    ensures Find(a + b, sub) == Find(a, sub)
  {
    if StartsWith(a, sub) {
      assert (a + b)[..|sub|] == a[..|sub|];
    } else {
      FindAppend(a[1..], b, sub);
      assert (a + b)[1..] == a[1..] + b;
      assert (a + b)[..|sub|] == a[..|sub|];
    }
  }

  // ---------------------------------------------------------------------------
  // urlsplit
  // ---------------------------------------------------------------------------

  datatype UrlParts = UrlParts(scheme: string, netloc: string, query: string, fragment: string)

  predicate SchemeChar(c: char) {
    'a' <= c <= 'z' || 'A' <= c <= 'Z' || '0' <= c <= '9' || c in {'+', '-', '.'}
  }

  predicate SchemeText(s: string) {
    s != "" && ('a' <= s[0] <= 'z' || 'A' <= s[0] <= 'Z') && forall k | 0 <= k < |s| :: SchemeChar(s[k])
  }

  /** Leading controls and spaces go, and tabs and line breaks anywhere. */
  function Cleaned(url: string): string {
    Keep(StripLeft(url, c => c <= ' '), c => c !in {'\t', '\r', '\n'})
  }

  predicate NetlocEnd(c: char) {
    c in {'/', '?', '#'}
  }

  /** The scheme as written, the network location, and what follows it. */
  function Front(s: string): (string, string, string) {
    var i := |Before(s, ':')|;
    var named := i < |s| && SchemeText(s[..i]);
    var rest := if named then s[i + 1..] else s;
    var netloc := if StartsWith(rest, "//") then UpTo(rest[2..], NetlocEnd) else "";
    (if named then s[..i] else "", netloc, if StartsWith(rest, "//") then rest[2 + |netloc|..] else rest)
  }

  /** `urlsplit`; `None` when it raises. */
  function UrlSplit(lib: UrlLib, url: string): Option<UrlParts> {
    var (scheme, netloc, tail) := Front(Cleaned(url));
    if !lib.netlocOk(netloc) then None
    else Some(UrlParts(Lower(lib, scheme), netloc, After(Before(tail, '#'), '?'), After(tail, '#')))
  }

  /** `p.username` and `p.password`, with "" for None. */
  function NetlocUser(netloc: string): (string, string) {
    var cut := LastCut(netloc, '@');
    if cut == 0 then ("", "") else (Before(netloc[..cut - 1], ':'), After(netloc[..cut - 1], ':'))
  }

  // ---------------------------------------------------------------------------
  // Endpoints
  // ---------------------------------------------------------------------------

  /** Host and port texts of a network location without user info; `None` when malformed. */
  function HostPort(netloc: string): Option<(string, string)> {
    if netloc == "" then None
    else if netloc[0] == '[' then
      var end := |Before(netloc, ']')|;
      if end == |netloc| then None
      else
        var rest := netloc[end + 1..];
        if rest != "" && rest[0] != ':' then None
        else Some((netloc[..end + 1], if rest != "" then rest[1..] else ""))
    else if !Has(netloc, ':') then Some((netloc, ""))
    else
      var host := Before(netloc, ':');
      if Has(After(netloc, ':'), ':') then None else Some((host, After(netloc, ':')))
  }

  /** `_endpoint_from_netloc`. */
  function EndpointFromNetloc(lib: UrlLib, netloc: string, defaultPort: int): Result<Endpoint, ParseError> {
    var whole := Trimmed(lib, netloc);
    match HostPort(whole[LastCut(whole, '@')..])
    case None => Err(Malformed)
    case Some(hp) =>
      var host := Strip(Trimmed(lib, hp.0), c => c == '[' || c == ']');
      if host == "" || |host| > MAX_HOST_LEN then Err(Malformed)
      else
        var port := if hp.1 == "" then Some(defaultPort) else lib.parseInt(hp.1);
        if port.None? then Err(Malformed)
        else
          match MakeEndpoint(lib.names, host, port.value, None)
          case None => Err(Malformed)
          case Some(ep) => Ok(ep)
  }

  datatype UserHost = UserHost(user: string, pwd: string, endpoint: Endpoint)

  predicate MainEnd(c: char) {
    c in {'#', '?'}
  }

  function AfterScheme(url: string): string {
    match Find(url, "://") case None => url case Some(k) => url[k + 3..]
  }

  /** The part of a link between `://` and its query or fragment. */
  function MainOf(url: string): string {
    UpTo(AfterScheme(url), MainEnd)
  }

  /** `_split_userinfo_hostport`: the last literal `@` decides, so user info may hold slashes. */
  function SplitUserinfoHostport(lib: UrlLib, url: string, defaultPort: int): Result<UserHost, ParseError> {
    var main := MainOf(url);
    var cut := LastCut(main, '@');
    var userinfo := if cut == 0 then "" else main[..cut - 1];
    var hostport := StripRight(main[cut..], c => c == '/');
    var colon := LastCut(userinfo, ':');
    var user := if colon == 0 then userinfo else userinfo[..colon - 1];
    var pwd := if colon == 0 then "" else userinfo[colon..];
    match EndpointFromNetloc(lib, hostport, defaultPort)
    case Err(e) => Err(e)
    case Ok(ep) => Ok(UserHost(user, pwd, ep))
  }

  // ---------------------------------------------------------------------------
  // Queries
  // ---------------------------------------------------------------------------

  function Plus(s: string): string {
    Swap(s, '+', ' ')
  }

  /** `parse_qsl` on one `name=value` piece; a piece without `=` has the empty value. */
  function PairOf(lib: UrlLib, piece: string): (string, string) {
    (PercentDecode(lib, Plus(Before(piece, '='))), PercentDecode(lib, Plus(After(piece, '='))))
  }

  predicate Given(piece: string) {
    piece != ""
  }

  function ToPair(lib: UrlLib): string -> (string, string) {
    (piece: string) => PairOf(lib, piece)
  }

  function PairsOf(lib: UrlLib, pieces: seq<string>): seq<(string, string)> {
    Map(Select(pieces, Given), ToPair(lib))
  }

  function ParseQsl(lib: UrlLib, query: string): seq<(string, string)> {
    PairsOf(lib, Split(query, "&"))
  }

  function NameOf(lib: UrlLib, pair: (string, string)): string {
    Lower(lib, Trimmed(lib, pair.0))
  }

  /** The dictionary after the first `n` pairs: the last value under the name, the first repeated one under `name[]`. */
  function QueryOf(lib: UrlLib, pairs: seq<(string, string)>, n: nat): map<string, string>
    requires n <= |pairs|
  {
    if n == 0 then map[]
    else
      var out := QueryOf(lib, pairs, n - 1);
      var k := NameOf(lib, pairs[n - 1]);
      var marked := if k in out && k + "[]" !in out then out[k + "[]" := out[k]] else out;
      marked[k := pairs[n - 1].1]
  }

  function ParsedQuery(lib: UrlLib, query: string): map<string, string> {
    var pairs := ParseQsl(lib, query);
    QueryOf(lib, pairs, |pairs|)
  }

  /** `parse_query`. */
  method ParseQuery(lib: UrlLib, query: string) returns (out: map<string, string>)
    ensures out == ParsedQuery(lib, query)
  {
    hide NameOf, ParseQsl;
    var pairs := ParseQsl(lib, query);
    out := map[];
    for i := 0 to |pairs|
      invariant out == QueryOf(lib, pairs, i)
    {
      var k := NameOf(lib, pairs[i]);
      if k in out {
        var prev := out[k];
        out := out[k + "[]" := if k + "[]" !in out then prev else out[k + "[]"]];
      }
      out := out[k := pairs[i].1];
    }
  }

  /** `q.get(k, "")`. */
  function Get(q: map<string, string>, k: string): string {
    if k in q then q[k] else ""
  }

  // ---------------------------------------------------------------------------
  // Protocol fields
  // ---------------------------------------------------------------------------

  lemma LeastExists(s: set<string>)
    requires s != {}
    ensures exists m :: m in s && forall x | x in s :: TextLe(m, x)
  {
    var m := Least(s);
  }

  lemma Least(s: set<string>) returns (m: string)
    requires s != {}
    ensures m in s && forall x | x in s :: TextLe(m, x)
  {
    hide TextLe;
    var a :| a in s;
    TextLeTotal(a, a);
    if s == {a} {
      return a;
    }
    var least := Least(s - {a});
    TextLeTotal(a, least);
    m := if TextLe(a, least) then a else least;
    forall x | x in s ensures TextLe(m, x) {
      if x != a {
        assert TextLe(least, x);
        TextLeTrans(m, least, x);
      }
    }
  }

  lemma LeastUnique(s: set<string>)
    ensures forall m, n | m in s && n in s && (forall x | x in s :: TextLe(m, x))
            && (forall x | x in s :: TextLe(n, x)) :: m == n
  {
    forall m, n | m in s && n in s && (forall x | x in s :: TextLe(m, x))
        && (forall x | x in s :: TextLe(n, x)) ensures m == n {
      TextLeTotal(m, n);
    }
  }

  /** The items of a dictionary in ascending order of their keys. */
  function SortedItems(m: map<string, string>): seq<(string, string)>
    decreases m.Keys
  {
    if m == map[] then []
    else
      assert m.Keys != {};
      LeastExists(m.Keys);
      LeastUnique(m.Keys);
      var k :| k in m.Keys && forall x | x in m.Keys :: TextLe(k, x);
      [(k, m[k])] + SortedItems(m - {k})
  }

  /** Stripping leaves the keys of a dictionary nonempty and distinct. */
  predicate KeysTrim(lib: UrlLib, pf: map<string, string>) {
    && (forall k | k in pf :: Trimmed(lib, k) != "")
    && (forall j, k | j in pf && k in pf && Trimmed(lib, j) == Trimmed(lib, k) :: j == k)
  }

  function TrimmedKeys(lib: UrlLib, pf: map<string, string>): map<string, string>
    requires KeysTrim(lib, pf)
  {
    map k | k in pf :: Trimmed(lib, k) := pf[k]
  }

  /** What the node constructor makes of a dictionary of fields: keys stripped, items sorted; otherwise it raises. */
  function CanonicalFields(lib: UrlLib, pf: map<string, string>): Option<seq<(string, string)>> {
    if KeysTrim(lib, pf) then Some(SortedItems(TrimmedKeys(lib, pf))) else None
  }

  function WithFields(lib: UrlLib, n: Node, pf: map<string, string>): Result<Node, ParseError> {
    match CanonicalFields(lib, pf)
    case None => Err(Malformed)
    case Some(items) => Ok(n.(protocolFields := items))
  }

  /** Unknown query parameters are kept under `qp.`. */
  function Unknown(q: map<string, string>, drop: set<string>): map<string, string> {
    assert forall j, k :: "qp." + j == "qp." + k ==> j == k by {
      forall j, k | "qp." + j == "qp." + k ensures j == k {
        assert ("qp." + j)[3..] == j && ("qp." + k)[3..] == k;
      }
    }
    map k | k in q && k !in drop :: "qp." + k := q[k]
  }

  // ---------------------------------------------------------------------------
  // Shared query-derived material
  // ---------------------------------------------------------------------------

  function TransportOf(lib: UrlLib, text: string): Transport {
    var v := Lower(lib, Trimmed(lib, text));
    if v in {"tcp", "raw"} then TCP
    else if v in {"ws", "websocket", "httpupgrade"} then WS
    else if v in {"grpc", "gun"} then GRPC
    else if v in {"xhttp", "splithttp"} then XHTTP
    else if v in {"h2", "http"} then HTTP2
    else if v == "quic" then QUIC
    else UNKNOWN_TRANSPORT
  }

  function SecurityOf(lib: UrlLib, text: string): Security {
    var v := Lower(lib, Trimmed(lib, text));
    if v == "tls" then TLS else if v == "reality" then REALITY else if v == "none" then NO_SECURITY
    else UNKNOWN_SECURITY
  }

  function RawType(lib: UrlLib, q: map<string, string>): string {
    Lower(lib, Trimmed(lib, if Get(q, "type") != "" then Get(q, "type") else Get(q, "net")))
  }

  function TransportFrom(lib: UrlLib, q: map<string, string>): Transport {
    if RawType(lib, q) == "kcp" then UNKNOWN_TRANSPORT else TransportOf(lib, RawType(lib, q))
  }

  function SecurityFrom(lib: UrlLib, q: map<string, string>): Security {
    var raw := Lower(lib, Trimmed(lib, if Get(q, "security") != "" then Get(q, "security")
                                       else if Get(q, "pbk") != "" then "reality" else ""));
    if raw in {"tls", "reality", "none"} then SecurityOf(lib, raw)
    else if Get(q, "pbk") != "" || Get(q, "sid") != "" then REALITY
    else UNKNOWN_SECURITY
  }

  /** A transport nobody recognises keeps its raw name. */
  function RawTransport(lib: UrlLib, q: map<string, string>): map<string, string> {
    if RawType(lib, q) != "" && TransportFrom(lib, q) == UNKNOWN_TRANSPORT
      then map["transport.raw" := RawType(lib, q)] else map[]
  }

  function Insecure(lib: UrlLib, q: map<string, string>): bool {
    Lower(lib, if "allowinsecure" in q then q["allowinsecure"] else if "insecure" in q then q["insecure"] else "0")
    in {"1", "true", "yes"}
  }

  /** `_transport_and_security` and `_finish` on a fresh node. */
  function Streamed(lib: UrlLib, n: Node, q: map<string, string>): Node {
    n.(transport := TransportFrom(lib, q), security := SecurityFrom(lib, q),
       sni := SafeStr(lib, Get(q, "sni")), alpn := SafeStr(lib, Get(q, "alpn")),
       fingerprint := SafeStr(lib, if Get(q, "fp") != "" then Get(q, "fp") else Get(q, "fingerprint")),
       flow := SafeStr(lib, Get(q, "flow")), allowInsecure := Insecure(lib, q))
  }

  /** `grpc`, or a service name of its own. */
  function ServiceName(lib: UrlLib, q: map<string, string>): string {
    if Lower(lib, Get(q, "type")) == "grpc" || Get(q, "servicename") != "" then SafeStr(lib, Get(q, "servicename"))
    else ""
  }

  function Optional(lib: UrlLib, q: map<string, string>, k: string): string {
    if Get(q, k) != "" then SafeStr(lib, q[k]) else ""
  }

  const STREAM_PARAMS: set<string> :=
    {"type", "security", "sni", "alpn", "fp", "fingerprint", "flow", "allowinsecure", "insecure", "path", "host",
        "servicename"}

  // ---------------------------------------------------------------------------
  // The protocols
  // ---------------------------------------------------------------------------

  /** A parameter recorded under its own field name, if it is given and not empty. */
  function Recorded(lib: UrlLib, pf: map<string, string>, q: map<string, string>, k: string,
                    name: string): map<string, string> {
    if Get(q, k) != "" then pf[name := SafeStr(lib, q[k])] else pf
  }

  function VlessNode(lib: UrlLib, url: string, uuid: string, ep: Endpoint,
                     q: map<string, string>): Result<Node, ParseError> {
    var n := Streamed(lib, FreshNode(VLESS, ep, url).(uuid := uuid), q);
    var pubkey := Recorded(lib, RawTransport(lib, q), q, "pbk", "vless.reality.pubkey");
    var shortid := Recorded(lib, pubkey, q, "sid", "vless.reality.shortid");
    var spx := Recorded(lib, shortid, q, "spx", "vless.reality.spx");
    WithFields(lib, n.(serviceName := ServiceName(lib, q), path := Optional(lib, q, "path"),
                       hostHeader := Optional(lib, q, "host")),
               spx + Unknown(q, STREAM_PARAMS + {"pbk", "sid", "spx"}))
  }

  function ParseVless(lib: UrlLib, url: string): Result<Node, ParseError> {
    match UrlSplit(lib, url)
    case None => Err(Malformed)
    case Some(p) =>
      if p.scheme != "vless" then Err(UnsupportedScheme)
      else
        match SplitUserinfoHostport(lib, url, 443)
        case Err(e) => Err(e)
        case Ok(x) =>
          var uuid := PercentDecode(lib, x.user);
          if x.pwd != "" || uuid == "" || Has(uuid, ':') || Has(uuid, '@') || Has(uuid, '/') then Err(Malformed)
          else if |uuid| > MAX_SECRET_LEN then Err(LengthLimit)
          else VlessNode(lib, url, uuid, x.endpoint, ParsedQuery(lib, p.query))
  }

  function TrojanNode(lib: UrlLib, url: string, password: string, ep: Endpoint,
                      q: map<string, string>): Result<Node, ParseError> {
    var n := Streamed(lib, FreshNode(TROJAN, ep, url).(password := password), q);
    WithFields(lib, n.(serviceName := ServiceName(lib, q), path := Optional(lib, q, "path"),
                       hostHeader := Optional(lib, q, "host")),
               RawTransport(lib, q) + Unknown(q, STREAM_PARAMS))
  }

  function ParseTrojan(lib: UrlLib, url: string): Result<Node, ParseError> {
    match UrlSplit(lib, url)
    case None => Err(Malformed)
    case Some(p) =>
      if p.scheme != "trojan" then Err(UnsupportedScheme)
      else
        match SplitUserinfoHostport(lib, url, 443)
        case Err(e) => Err(e)
        case Ok(x) =>
          var user := PercentDecode(lib, x.user);
          var password := if x.pwd != "" then user + ":" + PercentDecode(lib, x.pwd) else user;
          if password == "" then Err(Malformed)
          else if |password| > MAX_SECRET_LEN then Err(LengthLimit)
          else TrojanNode(lib, url, password, x.endpoint, ParsedQuery(lib, p.query))
  }

  function Hysteria2Node(lib: UrlLib, url: string, auth: string, ep: Endpoint,
                         q: map<string, string>): Result<Node, ParseError> {
    var n := Streamed(lib, FreshNode(HYSTERIA2, ep, url).(password := auth), q);
    var obfs := Recorded(lib, map[], q, "obfs", "hy2.obfs");
    var secret := if Get(q, "obfs") != "" then Recorded(lib, obfs, q, "obfs-password", "hy2.obfs.password") else obfs;
    var pin := Recorded(lib, secret, q, "pinSHA256", "hy2.pinSHA256");
    WithFields(lib, n.(path := Optional(lib, q, "path")),
               pin + Unknown(q, STREAM_PARAMS + {"obfs", "obfs-password", "pinSHA256"}) + RawTransport(lib, q))
  }

  function ParseHysteria2(lib: UrlLib, url: string): Result<Node, ParseError> {
    match UrlSplit(lib, url)
    case None => Err(Malformed)
    case Some(p) =>
      if p.scheme !in {"hysteria2", "hy2"} then Err(UnsupportedScheme)
      else
        match SplitUserinfoHostport(lib, url, 443)
        case Err(e) => Err(e)
        case Ok(x) =>
          var user := PercentDecode(lib, x.user);
          var auth := if x.pwd == "" then user
                      else if user != "" then user + ":" + PercentDecode(lib, x.pwd) else PercentDecode(lib, x.pwd);
          if auth == "" then Err(Malformed)
          else if |auth| > MAX_SECRET_LEN then Err(LengthLimit)
          else Hysteria2Node(lib, url, auth, x.endpoint, ParsedQuery(lib, p.query))
  }

  function SocksNode(lib: UrlLib, url: string, user: string, pwd: string, ep: Endpoint,
                     q: map<string, string>): Result<Node, ParseError> {
    var blank := FreshNode(SOCKS5, ep, url);
    var n := Streamed(lib, if user != "" then blank.(password := pwd, secret := user) else blank, q);
    WithFields(lib, n, RawTransport(lib, q) + Unknown(q, STREAM_PARAMS))
  }

  function ParseSocks(lib: UrlLib, url: string): Result<Node, ParseError> {
    match UrlSplit(lib, url)
    case None => Err(Malformed)
    case Some(p) =>
      if p.scheme !in {"socks", "socks5", "socks5h"} then Err(UnsupportedScheme)
      else
        match SplitUserinfoHostport(lib, url, 1080)
        case Err(e) => Err(e)
        case Ok(x) => SocksNode(lib, url, PercentDecode(lib, x.user), PercentDecode(lib, x.pwd), x.endpoint,
                                ParsedQuery(lib, p.query))
  }

  /** `method:password`; `None` without a colon. */
  function Credentials(lib: UrlLib, blob: string): Option<(string, string)> {
    if !Has(blob, ':') then None else Some((Lower(lib, Trimmed(lib, Before(blob, ':'))), After(blob, ':')))
  }

  /** Does `s` contain `sub`? */
  predicate Contains(s: string, sub: string) {
    Find(s, sub).Some?
  }

  /** SIP002 user info: plain or percent-encoded `method:password`, base64 of it, or a bare password. */
  function Sip002Credentials(lib: UrlLib, userinfo: string): Option<(string, string)> {
    if userinfo == "" then None
    else if Has(userinfo, ':') || Contains(Lower(lib, userinfo), "%3a")
      then Credentials(lib, PercentDecode(lib, userinfo))
    else
      match Encoding.FlexibleDecode(PercentDecode(lib, userinfo), lib.names.space)
      case Some(raw) => Credentials(lib, lib.decode(raw))
      case None => Some(("", PercentDecode(lib, userinfo)))
  }

  /** The pre-SIP002 form: the whole location is base64, with no user info of its own. */
  predicate LegacyNetloc(netloc: string) {
    NetlocUser(netloc).0 == "" && netloc != "" && !Has(netloc, '@')
  }

  function SsNode(lib: UrlLib, url: string, cred: (string, string), ep: Endpoint, q: map<string, string>,
                  fragment: string, sip002: bool):
    Result<Node, ParseError>
  {
    var n := Streamed(lib, FreshNode(SHADOWSOCKS, ep, url), q);
    var base := map["ss.method" := if cred.0 != "" then cred.0 else "unknown", "ss.password" := cred.1];
    var plugin := Recorded(lib, base, q, "plugin", "ss.plugin");
    var tagged := if fragment != "" then plugin["fragment" := PercentDecode(lib, fragment)] else plugin;
    WithFields(lib, n.(serviceName := if sip002 then ServiceName(lib, q) else "", path := Optional(lib, q, "path")),
               tagged + RawTransport(lib, q))
  }

  /** The legacy payload: everything before its last `@` is the credentials. */
  function LegacyPayload(lib: UrlLib, netloc: string): Option<(string, string)> {
    match Encoding.FlexibleDecode(PercentDecode(lib, netloc), lib.names.space)
    case None => None
    case Some(raw) =>
      var blob := lib.decode(raw);
      var cut := LastCut(blob, '@');
      if cut <= 1 then None else Some((blob[..cut - 1], blob[cut..]))
  }

  function ParseSs(lib: UrlLib, url: string): Result<Node, ParseError> {
    match UrlSplit(lib, url)
    case None => Err(Malformed)
    case Some(p) =>
      if p.scheme != "ss" then Err(UnsupportedScheme)
      else if LegacyNetloc(p.netloc) then
        match LegacyPayload(lib, p.netloc)
        case None => Err(Malformed)
        case Some(payload) =>
          (match Credentials(lib, payload.0)
           case None => Err(Malformed)
           case Some(cred) =>
             if cred.1 == "" then Err(Malformed)
             else if |cred.1| > MAX_SECRET_LEN then Err(LengthLimit)
             else
               match EndpointFromNetloc(lib, payload.1, 443)
               case Err(e) => Err(e)
               case Ok(ep) => SsNode(lib, url, cred, ep, ParsedQuery(lib, p.query), p.fragment, false))
      else
        var (user, pwd) := NetlocUser(p.netloc);
        match Sip002Credentials(lib, if user != "" && pwd != "" then user + ":" + pwd else user)
        case None => Err(Malformed)
        case Some(cred) =>
          if cred.1 == "" then Err(Malformed)
          else if |cred.1| > MAX_SECRET_LEN then Err(LengthLimit)
          else
            match EndpointFromNetloc(lib, p.netloc, 443)
            case Err(e) => Err(e)
            case Ok(ep) => SsNode(lib, url, cred, ep, ParsedQuery(lib, p.query), "", true)
  }

  // ---------------------------------------------------------------------------
  // parse_url
  // ---------------------------------------------------------------------------

  /** The scheme of a stripped link, in lower case; `None` without `scheme://`. */
  function SchemeOf(lib: UrlLib, url: string): Option<string> {
    var s := Before(url, ':');
    if SchemeText(s) && StartsWith(url[|s|..], "://") then Some(Lower(lib, s)) else None
  }

  /** The vmess reader is a library fact, up to the fields every parser sets and the measurements none makes. */
  function ParseVmess(lib: UrlLib, url: string): Result<Node, ParseError> {
    match lib.vmess(url)
    case None => Err(Malformed)
    case Some(n) =>
      Ok(n.(protocol := VMESS, rawUrl := url, tcpConnect := None, protocolHandshake := None, measuredLatency := None,
            jitterMs := None))
  }

  function ParseByScheme(lib: UrlLib, scheme: string, url: string): Result<Node, ParseError> {
    if scheme == "vless" then ParseVless(lib, url)
    else if scheme == "vmess" then ParseVmess(lib, url)
    else if scheme == "ss" then ParseSs(lib, url)
    else if scheme == "trojan" then ParseTrojan(lib, url)
    else if scheme in {"hysteria2", "hy2"} then ParseHysteria2(lib, url)
    else if scheme in {"socks", "socks5"} then ParseSocks(lib, url)
    else Err(UnsupportedScheme)
  }

  const MAX_NAME_LEN := 512

  /** The decoded fragment, kept as the display name only. */
  function FragmentName(lib: UrlLib, fragment: string): string {
    if fragment == "" then ""
    else
      var name := PercentDecode(lib, fragment);
      lib.nfc(if |name| > MAX_NAME_LEN then name[..MAX_NAME_LEN] else name)
  }

  function ParseUrl(lib: UrlLib, url: string): Result<Node, ParseError> {
    var u := Trimmed(lib, url);
    if u == "" then Err(Malformed)
    else if |url| > MAX_URL_LEN then Err(LengthLimit)
    else
      match SchemeOf(lib, u)
      case None => Err(Malformed)
      case Some(scheme) =>
        match ParseByScheme(lib, scheme, u)
        case Err(e) => Err(e)
        case Ok(n) =>
          match UrlSplit(lib, url)
          case None => Err(Malformed)
          case Some(p) =>
            var name := FragmentName(lib, p.fragment);
            Ok(if name != "" && n.outputName == "" then n.(outputName := name) else n)
  }
}
