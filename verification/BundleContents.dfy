/** What the files of a bundle hold and where they are: in terms of the entries, not of how they are grouped. */
module BundleContents {
  import opened Common
  import opened Numbers
  import opened Model
  import opened Text
  import opened Sorting
  import opened Encoding
  import opened Output
  import opened Groups
  import Scoring

  // ---------------------------------------------------------------------------
  // Which entries belong where
  // ---------------------------------------------------------------------------

  predicate OfProtocol(name: string, e: Entry) {
    || (name == "vless" && e.node.protocol == VLESS) || (name == "vmess" && e.node.protocol == VMESS)
    || (name == "ss" && e.node.protocol == SHADOWSOCKS) || (name == "trojan" && e.node.protocol == TROJAN)
    || (name == "hysteria2" && e.node.protocol == HYSTERIA2) || (name == "socks" && e.node.protocol == SOCKS5)
    || (name == "other" && e.node.protocol == OTHER)
  }

  /** HTTP/2, QUIC and unknown transports have no file. */
  predicate OfTransport(name: string, e: Entry) {
    || (name == "tcp" && e.node.transport == TCP) || (name == "ws" && e.node.transport == WS)
    || (name == "grpc" && e.node.transport == GRPC) || (name == "xhttp" && e.node.transport == XHTTP)
  }

  /** The country as it is displayed. */
  function CountryText(lib: OutputLib, n: Node): string {
    if n.geo.None? || Strip(n.geo.value.country, lib.space) == "" then "Unknown"
    else Strip(n.geo.value.country, lib.space)
  }

  function Stem(lib: OutputLib, country: string, naming: FileNaming): string {
    var text := Strip(country, lib.space);
    if naming == AlnumLower then lib.lower(Keep(text, lib.isAlnum))
    else
      var kept := Strip(Keep(text, c => lib.wordOrSpace(c) || c == '-'), lib.space);
      seq(|kept|, i requires 0 <= i < |kept| => if kept[i] == ' ' then '_' else kept[i])
  }

  /** A country's file is called by its stem; three names stand for no country, and they have no file. */
  predicate OfCountry(lib: OutputLib, p: OutputPolicy, name: string, e: Entry) {
    var stem := Stem(lib, CountryText(lib, e.node), p.countryFilename);
    name == (if stem == "" then "Unknown" else stem) && lib.lower(name) !in {"global", "other", "unknown"}
  }

  /** One source of the displayed latency, and what it gives. */
  predicate Gives(n: Node, source: PingSource, ms: real) {
    var sample := if source == MeasuredPing then n.measuredLatency else n.tcpConnect;
    && sample.Some? && sample.value.kind == (if source == MeasuredPing then MEASURED else TCP_CONNECT)
    && sample.value.valueMs == Some(Fin(ms)) && ms >= 0.0
  }

  ghost predicate Silent(n: Node, source: PingSource) {
    forall ms :: !Gives(n, source, ms)
  }

  /** The first source that gives anything gives this. */
  ghost predicate Displays(n: Node, sources: seq<PingSource>, ms: real) {
    exists k :: 0 <= k < |sources| && Gives(n, sources[k], ms) && forall j | 0 <= j < k :: Silent(n, sources[j])
  }

  /** The displayed latency is that of the first source that has one. */
  lemma {:induction false} DisplayedExactly(n: Node, sources: seq<PingSource>)
    ensures forall ms :: DisplayPing(n, sources) == Some(ms) <==> Displays(n, sources, ms)
  {
    if sources != [] {
      var first := sources[0];
      DisplayedExactly(n, sources[1..]);
      FirstSource(n, first);
      forall ms ensures DisplayPing(n, sources) == Some(ms) <==> Displays(n, sources, ms) {
        if Displays(n, sources[1..], ms) && Silent(n, first) {
          var k :| 0 <= k < |sources| - 1 && Gives(n, sources[1..][k], ms)
              && forall j | 0 <= j < k :: Silent(n, sources[1..][j]);
          assert Gives(n, sources[k + 1], ms) && forall j | 0 < j < k + 1 :: sources[j] == sources[1..][j - 1];
        }
        if Displays(n, sources, ms) && !Gives(n, first, ms) {
          var k :| 0 <= k < |sources| && Gives(n, sources[k], ms) && forall j | 0 <= j < k :: Silent(n, sources[j]);
          assert k > 0 && Gives(n, sources[1..][k - 1], ms);
          assert forall j | 0 <= j < k - 1 :: sources[1..][j] == sources[j + 1];
        }
      }
    }
  }

  function SourceMs(n: Node, source: PingSource): Option<real> {
    match source
    case MeasuredPing => SampleMs(n.measuredLatency, MEASURED)
    case TcpConnectPing => SampleMs(n.tcpConnect, TCP_CONNECT)
  }

  lemma FirstSource(n: Node, source: PingSource)
    ensures forall ms :: SourceMs(n, source) == Some(ms) <==> Gives(n, source, ms)
    ensures SourceMs(n, source).None? <==> Silent(n, source)
  {
    if SourceMs(n, source).Some? {
      assert Gives(n, source, SourceMs(n, source).value);
    }
  }

  // ---------------------------------------------------------------------------
  // What a file holds
  // ---------------------------------------------------------------------------

  /** Each entry has its link. */
  ghost predicate LinkOfEach(lib: OutputLib, p: OutputPolicy, group: seq<Entry>, links: seq<string>) {
    |links| == |group| && forall k | 0 <= k < |group| :: RenderLink(lib, group[k], p) == Ok(links[k])
  }

  /** The links of these entries, in order, a separator between them and one after them if the policy says so. */
  ghost predicate HoldsLinks(lib: OutputLib, p: OutputPolicy, group: seq<Entry>, text: string) {
    exists links :: LinkOfEach(lib, p, group, links)
                    && text == Join(links, p.lineSeparator) + (if p.trailingNewline then p.lineSeparator else "")
  }

  /** Base64 of the UTF-8 text of the links, a separator between them and none after them. */
  ghost predicate HoldsPayload(lib: OutputLib, p: OutputPolicy, group: seq<Entry>, text: string) {
    exists links :: LinkOfEach(lib, p, group, links) && text == Base64(Utf8(Join(links, p.payloadSeparator)))
  }

  lemma LinksEach(lib: OutputLib, p: OutputPolicy, group: seq<Entry>)
    requires Links(lib, group, p).Ok?
    ensures LinkOfEach(lib, p, group, Links(lib, group, p).value)
  {
    hide RenderLink, Links;
    LinksSize(lib, group, p);
    forall k | 0 <= k < |group| ensures RenderLink(lib, group[k], p) == Ok(Links(lib, group, p).value[k]) {
      LinksAt(lib, group, p, k);
    }
  }

  lemma TextHolds(lib: OutputLib, p: OutputPolicy, group: seq<Entry>, f: GroupFile)
    requires Renders(lib, p, group, f)
    ensures HoldsLinks(lib, p, group, f.text) && f.count == |group|
  {
    LinksEach(lib, p, group);
    hide RenderLink, Links, LinkOfEach, Join;
  }

  /** A file of a group: where it is, how many entries it has, and which. */
  ghost predicate FileOf(lib: OutputLib, p: OutputPolicy, es: seq<Entry>, f: GroupFile, dir: string,
                         belongs: Entry -> bool) {
    && f.path == dir + "/" + f.name + ".txt" && f.count == |Select(es, belongs)|
    && HoldsLinks(lib, p, Select(es, belongs), f.text)
  }

  /** A file for each name that some entry belongs under, and no other; each holds exactly those entries, in order. */
  ghost predicate FilesBy(lib: OutputLib, p: OutputPolicy, es: seq<Entry>, files: seq<GroupFile>, dir: string,
                          belongs: string -> (Entry -> bool)) {
    && (forall i | 0 <= i < |files| :: FileOf(lib, p, es, files[i], dir, belongs(files[i].name)))
    && (forall e, name | e in es && belongs(name)(e) :: exists i :: 0 <= i < |files| && files[i].name == name)
    && (forall i | 0 <= i < |files| :: exists e :: e in es && belongs(files[i].name)(e))
    && (forall i, j | 0 <= i < j < |files| :: files[i].name != files[j].name)
  }

  lemma {:induction false} SelectAgrees<T>(s: seq<T>, p: T -> bool, q: T -> bool)
    requires forall x | x in s :: p(x) <==> q(x)
    ensures Select(s, p) == Select(s, q)
  {
    if s != [] {
      SelectAgrees(s[1..], p, q);
    }
  }

  lemma {:induction false} SelectHolds<T>(s: seq<T>, p: T -> bool, x: T)
    ensures x in Select(s, p) <==> x in s && p(x)
  {
    if s != [] {
      SelectHolds(s[1..], p, x);
      assert x in s <==> x == s[0] || x in s[1..];
    }
  }

  /** A key that names exactly where an entry belongs. */
  ghost predicate Keys(key: Entry -> Option<string>, belongs: string -> (Entry -> bool)) {
    forall e, name :: key(e) == Some(name) <==> belongs(name)(e)
  }

  lemma FilesByKey(lib: OutputLib, p: OutputPolicy, es: seq<Entry>, key: Entry -> Option<string>, dir: string,
                   files: seq<GroupFile>, belongs: string -> (Entry -> bool))
    requires FilesOf(lib, p, es, key, dir, files) && Keys(key, belongs)
    ensures FilesBy(lib, p, es, files, dir, belongs)
  {
    hide Renders, HoldsLinks, Names, Select;
    forall i | 0 <= i < |files| ensures FileOf(lib, p, es, files[i], dir, belongs(files[i].name)) {
      SelectAgrees(es, Under(key, files[i].name), belongs(files[i].name));
      TextHolds(lib, p, Select(es, belongs(files[i].name)), files[i]);
    }
    forall e, name | e in es && belongs(name)(e) ensures exists i :: 0 <= i < |files| && files[i].name == name {
      SelectHolds(es, Under(key, name), e);
      NotNamed(es, key, name);
      var i :| 0 <= i < |Names(es, key)| && Names(es, key)[i] == name;
      assert files[i].name == name;
    }
    forall i | 0 <= i < |files| ensures exists e :: e in es && belongs(files[i].name)(e) {
      NotNamed(es, key, files[i].name);
      assert files[i].name in Names(es, key);
      var e := Select(es, Under(key, files[i].name))[0];
      SelectHolds(es, Under(key, files[i].name), e);
    }
    NamesDistinct(es, key);
  }

  function ByProtocolName(): string -> (Entry -> bool) {
    (name: string) => (e: Entry) => OfProtocol(name, e)
  }

  function ByTransportName(): string -> (Entry -> bool) {
    (name: string) => (e: Entry) => OfTransport(name, e)
  }

  function ByCountryName(lib: OutputLib, p: OutputPolicy): string -> (Entry -> bool) {
    (name: string) => (e: Entry) => OfCountry(lib, p, name, e)
  }

  lemma ProtocolKeys()
    ensures Keys(ProtocolFile, ByProtocolName())
  {
    forall e, name ensures ProtocolFile(e) == Some(name) <==> ByProtocolName()(name)(e) {
    }
  }

  lemma TransportKeys()
    ensures Keys(TransportFile, ByTransportName())
  {
    forall e, name ensures TransportFile(e) == Some(name) <==> ByTransportName()(name)(e) {
    }
  }

  lemma StemAs(lib: OutputLib, country: string, naming: FileNaming)
    ensures CountryFilename(lib, country, naming) == Stem(lib, country, naming)
  {
    if naming == Sanitized {
      var kept := Strip(Keep(Strip(country, lib.space), c => lib.wordOrSpace(c) || c == '-'), lib.space);
      assert Swap(kept, ' ', '_') == seq(|kept|, i requires 0 <= i < |kept| => if kept[i] == ' ' then '_' else kept[i]);
    }
  }

  lemma CountryKeys(lib: OutputLib, p: OutputPolicy)
    ensures Keys(CountryFile(lib, p), ByCountryName(lib, p))
  {
    forall e, name ensures CountryFile(lib, p)(e) == Some(name) <==> ByCountryName(lib, p)(name)(e) {
      CountryKey(lib, p, e, name);
    }
  }

  lemma CountryFileIs(lib: OutputLib, p: OutputPolicy, e: Entry)
    ensures var name := OrUnknown(CountryFilename(lib, GeoCountry(lib, e.node), p.countryFilename));
            CountryFile(lib, p)(e) == if lib.lower(name) in UNKNOWN_COUNTRY_KEYS then None else Some(name)
  {
    hide CountryFilename, GeoCountry, OrUnknown;
  }

  lemma CountryKey(lib: OutputLib, p: OutputPolicy, e: Entry, name: string)
    ensures CountryFile(lib, p)(e) == Some(name) <==> OfCountry(lib, p, name, e)
  {
    CountryFileIs(lib, p, e);
    StemAs(lib, CountryText(lib, e.node), p.countryFilename);
    CountryAs(lib, e.node);
    hide CountryFile, CountryFilename, Stem, Strip, GeoCountry, CountryText;
  }

  lemma CountryAs(lib: OutputLib, n: Node)
    ensures GeoCountry(lib, n) == CountryText(lib, n)
  {
    hide Strip;
  }

  /** An entry is in a latency tier when it displays a latency within its limit. */
  ghost predicate Within(p: OutputPolicy, limit: real, e: Entry) {
    exists ms :: Displays(e.node, p.pingSources, ms) && ms <= limit
  }

  ghost function InTier(p: OutputPolicy, limit: real): Entry -> bool {
    (e: Entry) => Within(p, limit, e)
  }

  lemma TierAgrees(p: OutputPolicy, limit: real, es: seq<Entry>)
    ensures Select(es, Slower(p, limit)) == Select(es, InTier(p, limit))
  {
    hide DisplayPing, Displays;
    forall e | e in es ensures Slower(p, limit)(e) <==> InTier(p, limit)(e) {
      DisplayedExactly(e.node, p.pingSources);
    }
    SelectAgrees(es, Slower(p, limit), InTier(p, limit));
  }

  /** The file of a latency tier. */
  ghost predicate TierFile(lib: OutputLib, p: OutputPolicy, es: seq<Entry>, f: GroupFile, path: string, limit: real) {
    && f.path == path && f.count == |Select(es, InTier(p, limit))|
    && HoldsLinks(lib, p, Select(es, InTier(p, limit)), f.text)
  }

  /**
   * A bundle in terms of its entries: the list of all links and its base64 payload; a file
   * in `Config` for each protocol, in `transports` for each of four transports, and in
   * `Country` for each known country that occurs; and the two latency tiers.
   */
  lemma BundleSpelled(lib: OutputLib, p: OutputPolicy, es: seq<Entry>, b: Bundle)
    requires Bundled(lib, p, es, b)
    ensures b.nodes == |es| && HoldsLinks(lib, p, es, b.allText) && HoldsPayload(lib, p, es, b.allBase64)
    ensures FilesBy(lib, p, es, b.byProtocol, "Config", ByProtocolName())
    ensures FilesBy(lib, p, es, b.byTransport, "transports", ByTransportName())
    ensures FilesBy(lib, p, es, b.byCountry, "Country", ByCountryName(lib, p))
    ensures TierFile(lib, p, es, b.ultraFast, "Subscription/ultra_fast.txt", p.ultraFastMs)
    ensures TierFile(lib, p, es, b.goodPing, "Subscription/good_ping.txt", p.goodPingMs)
  {
    ProtocolKeys();
    TransportKeys();
    CountryKeys(lib, p);
    TierAgrees(p, p.ultraFastMs, es);
    TierAgrees(p, p.goodPingMs, es);
    AllHold(lib, p, es, b);
    TierPaths();
    hide FilesOf, Select, Slower, RenderText, RenderPayload, Renders, HoldsLinks, HoldsPayload, FilesBy, Keys, Within;
    FilesByKey(lib, p, es, ProtocolFile, "Config", b.byProtocol, ByProtocolName());
    FilesByKey(lib, p, es, TransportFile, "transports", b.byTransport, ByTransportName());
    FilesByKey(lib, p, es, CountryFile(lib, p), "Country", b.byCountry, ByCountryName(lib, p));
    TextHolds(lib, p, Select(es, Slower(p, p.ultraFastMs)), b.ultraFast);
    TextHolds(lib, p, Select(es, Slower(p, p.goodPingMs)), b.goodPing);
  }

  lemma TierPaths()
    ensures PathIn(TIER_DIR, ULTRA_FAST) == "Subscription/ultra_fast.txt"
    ensures PathIn(TIER_DIR, GOOD_PING) == "Subscription/good_ping.txt"
  {
  }

  lemma AllHold(lib: OutputLib, p: OutputPolicy, es: seq<Entry>, b: Bundle)
    requires Bundled(lib, p, es, b)
    ensures HoldsLinks(lib, p, es, b.allText) && HoldsPayload(lib, p, es, b.allBase64)
  {
    hide FilesOf, Renders, Select, Slower, Links, Join, RenderLink, Base64, Utf8, LinkOfEach;
    LinksEach(lib, p, es);
  }

  /** Exactly these policies are accepted. */
  lemma PolicyExactly(p: OutputPolicy)
    ensures AcceptedPolicy(p) <==>
            && p.lineSeparator in {"\r\n", "\n"} && p.payloadSeparator in {"\r\n", "\n"}
            && |p.pingSources| >= 1 && 0 <= p.pingDecimals <= 6
  {
  }

  // ---------------------------------------------------------------------------
  // What a link says
  // ---------------------------------------------------------------------------

  function CityText(lib: OutputLib, n: Node): string {
    if n.geo.None? || Strip(n.geo.value.city, lib.space) == "" then "Unknown" else Strip(n.geo.value.city, lib.space)
  }

  /** A flag of its own, or that of a country code of two letters, or the globe. */
  function FlagShown(lib: OutputLib, n: Node): string {
    if n.geo.None? then "\U{1F310}"
    else
      var own, code := Strip(n.geo.value.flag, lib.space), lib.upper(Strip(n.geo.value.countryCode, lib.space));
      if own !in {"", "\U{1F310}"} then own
      else if |code| == 2 && lib.isAlpha(code) && code != "XX" then lib.flagOf(code)
      else "\U{1F310}"
  }

  /** The displayed latency, as many decimals as the policy says, or what stands for none. */
  ghost predicate PingShown(lib: OutputLib, n: Node, p: OutputPolicy, text: string) {
    && (forall ms | Displays(n, p.pingSources, ms) ::
          text == "\U{1F17F}\U{FE0F}ping:" + lib.format(ms, p.pingDecimals) + "ms")
    && ((forall ms :: !Displays(n, p.pingSources, ms)) ==>
          text == if p.unknownPing then "\U{1F17F}\U{FE0F}ping:Unknown" else "")
  }

  /** The architecture the score was given for, or what stands for none. */
  function ArchShown(lib: OutputLib, o: Scoring.ScoreOutcome, p: OutputPolicy): string {
    if o.components.Some? && Strip(o.components.value.archLabel, lib.space) != ""
      then "\U{26A1}\U{FE0F}" + Strip(o.components.value.archLabel, lib.space)
    else if p.unknownArch then "\U{26A1}\U{FE0F}Unknown" else ""
  }

  lemma FlagAs(lib: OutputLib, n: Node)
    ensures GeoFlag(lib, n) == FlagShown(lib, n) && GeoCountry(lib, n) == CountryText(lib, n)
    ensures GeoCity(lib, n) == CityText(lib, n)
  {
    hide Strip;
  }

  function PingText(lib: OutputLib, n: Node, p: OutputPolicy): string {
    var ping := DisplayPing(n, p.pingSources);
    if ping.Some? then "\U{1F17F}\U{FE0F}ping:" + lib.format(ping.value, p.pingDecimals) + "ms"
    else if p.unknownPing then "\U{1F17F}\U{FE0F}ping:" + UNKNOWN_TEXT else ""
  }

  lemma PingAs(lib: OutputLib, n: Node, p: OutputPolicy)
    ensures PingShown(lib, n, p, PingText(lib, n, p))
  {
    DisplayedExactly(n, p.pingSources);
    hide DisplayPing, Displays;
    var ping := DisplayPing(n, p.pingSources);
    assert ping.Some? ==> Displays(n, p.pingSources, ping.value);
    assert "\U{1F17F}\U{FE0F}ping:" + UNKNOWN_TEXT == "\U{1F17F}\U{FE0F}ping:Unknown";
  }

  lemma ArchAs(lib: OutputLib, o: Scoring.ScoreOutcome, p: OutputPolicy)
    ensures (if ArchLabel(lib, o).Some? then "\U{26A1}\U{FE0F}" + ArchLabel(lib, o).value
             else if p.unknownArch then "\U{26A1}\U{FE0F}" + UNKNOWN_TEXT else "") == ArchShown(lib, o, p)
  {
    hide Strip;
    assert "\U{26A1}\U{FE0F}" + UNKNOWN_TEXT == "\U{26A1}\U{FE0F}Unknown";
  }

  /** The name of a rendered link: channel, flag, country, city, latency, architecture. */
  lemma BrandSpelled(lib: OutputLib, e: Entry, p: OutputPolicy)
    ensures exists ping :: PingShown(lib, e.node, p, ping)
              && BrandName(lib, e, p)
                 == "\U{1F449}\U{1F194}@" + p.channelTag + "\U{1F4E1}" + FlagShown(lib, e.node)
                    + "\U{AE}\U{FE0F}" + CountryText(lib, e.node) + "\U{A9}\U{FE0F}" + CityText(lib, e.node)
                    + ping + ArchShown(lib, e.outcome, p)
  {
    FlagAs(lib, e.node);
    PingAs(lib, e.node, p);
    ArchAs(lib, e.outcome, p);
    hide GeoFlag, GeoCountry, GeoCity, FlagShown, CountryText, CityText, PingShown, ArchShown, ArchLabel, DisplayPing;
    assert PingShown(lib, e.node, p, PingText(lib, e.node, p));
  }

  /**
   * A link without a control character before its fragment gets its name as a new fragment;
   * vmess carries it inside.
   */
  lemma LinkSpelled(lib: OutputLib, e: Entry, p: OutputPolicy, body: string)
    requires LinkBodyOf(e.node.rawUrl, body)
    ensures var r, name := RenderLink(lib, e, p), BrandName(lib, e, p);
            if body == "" then r == Err(NoRawUrl)
            else if exists k :: 0 <= k < |body| && (body[k] < ' ' || body[k] == '\U{7F}') then r == Err(UnsafeText)
            else if e.node.protocol != VMESS then r == Ok(body + "#" + Quote(name))
            else
              var head := if |body| > 8 then body[..8] else body;
              var payload := if lib.lower(head) == "vmess://" then body[|head|..] else body;
              var json := lib.vmessJson(payload, name, p.vmessNameField);
              r == if json.Some? then Ok("vmess://" + Base64(Utf8(json.value))) else Ok(e.node.rawUrl)
  {
    BeforeUnique(e.node.rawUrl, '#', body);
    hide BrandName, Base64, Utf8, Quote, Before;
    assert forall k | 0 <= k < |body| :: Control(body[k]) <==> body[k] < ' ' || body[k] == '\U{7F}';
  }

  /** Everything before the first `#`. */
  predicate LinkBodyOf(url: string, body: string) {
    |body| <= |url| && url[..|body|] == body && '#' !in body && (|body| < |url| ==> url[|body|] == '#')
  }
}
