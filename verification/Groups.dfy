/** `group_by_*`, the ping tiers and `build_outputs`: every file is a rendered filter of the entries. */
module Groups {
  import opened Common
  import opened Model
  import opened Text
  import opened Sorting
  import opened Output
  import Scoring

  // ---------------------------------------------------------------------------
  // Grouping
  // ---------------------------------------------------------------------------

  /** The entries that belong under `k`. */
  function Under(key: Entry -> Option<string>, k: string): Entry -> bool {
    (e: Entry) => key(e) == Some(k)
  }

  /** The names of the groups, in order of first appearance. */
  function Names(es: seq<Entry>, key: Entry -> Option<string>): seq<string> {
    if es == [] then []
    else
      var before := Names(es[..|es| - 1], key);
      var k := key(es[|es| - 1]);
      if k.Some? && k.value !in before then before + [k.value] else before
  }

  ghost predicate Grouped(es: seq<Entry>, key: Entry -> Option<string>, order: seq<string>,
                          groups: map<string, seq<Entry>>) {
    && order == Names(es, key)
    && (forall k :: k in groups <==> k in order)
    && (forall k | k in groups :: groups[k] == Select(es, Under(key, k)))
  }

  lemma {:induction false} NotNamed(es: seq<Entry>, key: Entry -> Option<string>, k: string)
    ensures k in Names(es, key) <==> Select(es, Under(key, k)) != []
  {
    if es != [] {
      var front, last := es[..|es| - 1], es[|es| - 1];
      NotNamed(front, key, k);
      assert es == front + [last];
      SelectAppend(front, [last], Under(key, k));
      assert [last][1..] == [];
    }
  }

  lemma {:induction false} NamesDistinct(es: seq<Entry>, key: Entry -> Option<string>)
    ensures forall i, j | 0 <= i < j < |Names(es, key)| :: Names(es, key)[i] != Names(es, key)[j]
  {
    if es != [] {
      NamesDistinct(es[..|es| - 1], key);
    }
  }

  lemma GroupedNext(es: seq<Entry>, e: Entry, key: Entry -> Option<string>, order: seq<string>,
                    groups: map<string, seq<Entry>>)
    requires Grouped(es, key, order, groups)
    ensures key(e).None? ==> Grouped(es + [e], key, order, groups)
    ensures key(e).Some? && key(e).value in groups ==>
              Grouped(es + [e], key, order, groups[key(e).value := groups[key(e).value] + [e]])
    ensures key(e).Some? && key(e).value !in groups ==>
              Grouped(es + [e], key, order + [key(e).value], groups[key(e).value := [e]])
  {
    hide Grouped;
    if key(e).None? {
      UngroupedNext(es, e, key, order, groups);
    } else if key(e).value in groups {
      OldGroupNext(es, e, key, order, groups);
    } else {
      NewGroupNext(es, e, key, order, groups);
    }
  }

  lemma UnderNext(es: seq<Entry>, e: Entry, key: Entry -> Option<string>)
    ensures forall k ::
              Select(es + [e], Under(key, k)) == Select(es, Under(key, k)) + (if key(e) == Some(k) then [e] else [])
    ensures Names(es + [e], key)
            == if key(e).Some? && key(e).value !in Names(es, key) then Names(es, key) + [key(e).value]
               else Names(es, key)
  {
    assert (es + [e])[..|es|] == es;
    assert [e][1..] == [];
    forall k ensures Select(es + [e], Under(key, k))
        == Select(es, Under(key, k)) + (if key(e) == Some(k) then [e] else []) {
      SelectAppend(es, [e], Under(key, k));
    }
  }

  lemma UngroupedNext(es: seq<Entry>, e: Entry, key: Entry -> Option<string>, order: seq<string>,
                      groups: map<string, seq<Entry>>)
    requires Grouped(es, key, order, groups) && key(e).None?
    ensures Grouped(es + [e], key, order, groups)
  {
    UnderNext(es, e, key);
    hide Names, Select, Under;
  }

  lemma OldGroupNext(es: seq<Entry>, e: Entry, key: Entry -> Option<string>, order: seq<string>,
                     groups: map<string, seq<Entry>>)
    requires Grouped(es, key, order, groups) && key(e).Some? && key(e).value in groups
    ensures Grouped(es + [e], key, order, groups[key(e).value := groups[key(e).value] + [e]])
  {
    UnderNext(es, e, key);
    hide Names, Select, Under;
  }

  lemma NewGroupNext(es: seq<Entry>, e: Entry, key: Entry -> Option<string>, order: seq<string>,
                     groups: map<string, seq<Entry>>)
    requires Grouped(es, key, order, groups) && key(e).Some? && key(e).value !in groups
    ensures Grouped(es + [e], key, order + [key(e).value], groups[key(e).value := [e]])
  {
    UnderNext(es, e, key);
    NotNamed(es, key, key(e).value);
    hide Names, Select, Under;
  }

  /** Lists under keys, filled entry by entry. */
  method GroupBy(es: seq<Entry>, key: Entry -> Option<string>)
    returns (order: seq<string>, groups: map<string, seq<Entry>>)
    ensures Grouped(es, key, order, groups)
  {
    order, groups := [], map[];
    for i := 0 to |es|
      invariant Grouped(es[..i], key, order, groups)
    {
      var e := es[i];
      GroupedNext(es[..i], e, key, order, groups);
      assert es[..i + 1] == es[..i] + [e];
      hide Grouped;
      var k := key(e);
      if k.Some? {
        if k.value in groups {
          groups := groups[k.value := groups[k.value] + [e]];
        } else {
          order, groups := order + [k.value], groups[k.value := [e]];
        }
      }
    }
    assert es[..|es|] == es;
  }

  function ProtocolFile(e: Entry): Option<string> {
    match e.node.protocol
    case VLESS => Some("vless") case VMESS => Some("vmess") case SHADOWSOCKS => Some("ss") case TROJAN => Some("trojan")
    case HYSTERIA2 => Some("hysteria2") case SOCKS5 => Some("socks") case OTHER => Some("other")
  }

  /** Transports that were never written have no file. */
  function TransportFile(e: Entry): Option<string> {
    match e.node.transport
    case TCP => Some("tcp") case WS => Some("ws") case GRPC => Some("grpc") case XHTTP => Some("xhttp")
    case _ => None
  }

  /** `country_filename`. */
  function CountryFilename(lib: OutputLib, country: string, naming: FileNaming): string {
    match naming
    case Sanitized => Swap(Trimmed(lib, Keep(Trimmed(lib, country), c => lib.wordOrSpace(c) || c == '-')), ' ', '_')
    case AlnumLower => lib.lower(Keep(Trimmed(lib, country), lib.isAlnum))
  }

  /** The file of an entry's country; sentinel names have none, an empty name becomes the sentinel. */
  function CountryFile(lib: OutputLib, p: OutputPolicy): Entry -> Option<string> {
    (e: Entry) =>
      var name := OrUnknown(CountryFilename(lib, GeoCountry(lib, e.node), p.countryFilename));
      if lib.lower(name) in UNKNOWN_COUNTRY_KEYS then None else Some(name)
  }

  function Slower(p: OutputPolicy, limit: real): Entry -> bool {
    (e: Entry) => DisplayPing(e.node, p.pingSources).Some? && DisplayPing(e.node, p.pingSources).value <= limit
  }

  lemma NoneSlower(p: OutputPolicy)
    ensures Select([], Slower(p, p.ultraFastMs)) == [] == Select([], Slower(p, p.goodPingMs))
  {
  }

  lemma TierNext(es: seq<Entry>, e: Entry, p: OutputPolicy, limit: real)
    ensures var ping := DisplayPing(e.node, p.pingSources);
            Select(es + [e], Slower(p, limit))
            == Select(es, Slower(p, limit)) + (if ping.Some? && ping.value <= limit then [e] else [])
  {
    hide DisplayPing;
    SelectAppend(es, [e], Slower(p, limit));
    assert [e][1..] == [];
  }

  /** `render_ping_tiers`: entries without a displayed latency are in no tier. */
  method PingTiers(es: seq<Entry>, p: OutputPolicy) returns (ultra: seq<Entry>, good: seq<Entry>)
    ensures ultra == Select(es, Slower(p, p.ultraFastMs)) && good == Select(es, Slower(p, p.goodPingMs))
  {
    hide DisplayPing, Slower, Select;
    ultra, good := [], [];
    NoneSlower(p);
    for i := 0 to |es|
      invariant ultra == Select(es[..i], Slower(p, p.ultraFastMs)) && good == Select(es[..i], Slower(p, p.goodPingMs))
    {
      var e := es[i];
      assert es[..i + 1] == es[..i] + [e];
      TierNext(es[..i], e, p, p.ultraFastMs);
      TierNext(es[..i], e, p, p.goodPingMs);
      var ping := DisplayPing(e.node, p.pingSources);
      if ping.None? {
        continue;
      }
      if ping.value <= p.ultraFastMs {
        ultra := ultra + [e];
      }
      if ping.value <= p.goodPingMs {
        good := good + [e];
      }
    }
    assert es[..|es|] == es;
  }

  // ---------------------------------------------------------------------------
  // What groups are
  // ---------------------------------------------------------------------------

  /** Selecting twice is selecting once when the second condition implies the first. */
  lemma {:induction false} SelectWithin<T>(s: seq<T>, p: T -> bool, q: T -> bool)
    requires forall x | x in s && q(x) :: p(x)
    ensures Select(Select(s, p), q) == Select(s, q)
  {
    if s != [] {
      SelectWithin(s[1..], p, q);
      SelectAppend(if p(s[0]) then [s[0]] else [], Select(s[1..], p), q);
      assert [s[0]][1..] == [];
    }
  }

  /** With a lower threshold the ultra-fast tier is an order-preserving part of the good tier. */
  lemma UltraWithinGood(es: seq<Entry>, p: OutputPolicy)
    requires p.ultraFastMs <= p.goodPingMs
    ensures Select(Select(es, Slower(p, p.goodPingMs)), Slower(p, p.ultraFastMs))
            == Select(es, Slower(p, p.ultraFastMs))
  {
    hide DisplayPing;
    SelectWithin(es, Slower(p, p.goodPingMs), Slower(p, p.ultraFastMs));
  }

  const PROTOCOL_FILES: seq<string> := ["vless", "vmess", "ss", "trojan", "hysteria2", "socks", "other"]

  /** Sizes of the groups under the first `n` of some names. */
  function Sizes(es: seq<Entry>, key: Entry -> Option<string>, names: seq<string>): nat {
    if names == [] then 0 else |Select(es, Under(key, names[0]))| + Sizes(es, key, names[1..])
  }

  /** The protocol files partition the entries: each is in the file of its own protocol, and the sizes add up. */
  lemma {:induction false} ProtocolsPartition(es: seq<Entry>)
    ensures Sizes(es, ProtocolFile, PROTOCOL_FILES) == |es|
  {
    ProtocolSizes(es);
    hide Under, Select;
    if es != [] {
      ProtocolSizes(es[1..]);
      ProtocolsPartition(es[1..]);
      OneProtocol(es);
    }
  }

  /** The number of entries under a protocol file. */
  function SizeOf(es: seq<Entry>, name: string): nat {
    |Select(es, Under(ProtocolFile, name))|
  }

  lemma ProtocolSizes(es: seq<Entry>)
    ensures Sizes(es, ProtocolFile, PROTOCOL_FILES)
            == SizeOf(es, "vless") + SizeOf(es, "vmess") + SizeOf(es, "ss") + SizeOf(es, "trojan")
                + SizeOf(es, "hysteria2")
               + SizeOf(es, "socks") + SizeOf(es, "other")
    ensures es == [] ==> Sizes(es, ProtocolFile, PROTOCOL_FILES) == 0
  {
    var f := PROTOCOL_FILES;
    assert f[1..][1..] == f[2..] && f[2..][1..] == f[3..] && f[3..][1..] == f[4..] && f[4..][1..] == f[5..]
           && f[5..][1..] == f[6..];
    assert f[6..][1..] == [];
    hide Select;
    SizesStep(es, f); SizesStep(es, f[1..]); SizesStep(es, f[2..]); SizesStep(es, f[3..]);
    SizesStep(es, f[4..]); SizesStep(es, f[5..]); SizesStep(es, f[6..]);
  }

  lemma SizesStep(es: seq<Entry>, names: seq<string>)
    requires names != []
    ensures Sizes(es, ProtocolFile, names) == SizeOf(es, names[0]) + Sizes(es, ProtocolFile, names[1..])
  {
  }

  lemma SizeStep(es: seq<Entry>, name: string)
    requires es != []
    ensures SizeOf(es, name) == SizeOf(es[1..], name) + (if ProtocolFile(es[0]) == Some(name) then 1 else 0)
  {
  }

  /** The first entry counts under exactly one protocol file. */
  lemma OneProtocol(es: seq<Entry>)
    requires es != []
    ensures var a, b := es[1..], es;
            SizeOf(b, "vless") + SizeOf(b, "vmess") + SizeOf(b, "ss") + SizeOf(b, "trojan") + SizeOf(b, "hysteria2")
              + SizeOf(b, "socks") + SizeOf(b, "other")
            == 1 + SizeOf(a, "vless") + SizeOf(a, "vmess") + SizeOf(a, "ss") + SizeOf(a, "trojan")
                + SizeOf(a, "hysteria2")
              + SizeOf(a, "socks") + SizeOf(a, "other")
  {
    SizeStep(es, "vless"); SizeStep(es, "vmess"); SizeStep(es, "ss"); SizeStep(es, "trojan");
    SizeStep(es, "hysteria2"); SizeStep(es, "socks"); SizeStep(es, "other");
    hide SizeOf;
  }

  // ---------------------------------------------------------------------------
  // The bundle
  // ---------------------------------------------------------------------------

  /** A group's file, with the size the bundle reports for it. */
  datatype GroupFile = GroupFile(name: string, path: string, text: string, count: nat)

  /** A candidate without a rank, for the audit only: its status and detail. */
  type Unlisted = (Scoring.Status, string)

  datatype Bundle = Bundle(
    allText: string, allBase64: string, byProtocol: seq<GroupFile>, byTransport: seq<GroupFile>,
    byCountry: seq<GroupFile>,
    ultraFast: GroupFile, goodPing: GroupFile,
    nodes: nat, unranked: seq<Unlisted>, byStatus: map<Scoring.Status, nat>)

  function WithStatus(status: Scoring.Status): Unlisted -> bool {
    (u: Unlisted) => u.0 == status
  }

  /** `unranked_by_status`: a count for exactly the statuses that occur. */
  ghost predicate Tallied(unranked: seq<Unlisted>, m: map<Scoring.Status, nat>) {
    && (forall s :: s in m <==> |Select(unranked, WithStatus(s))| > 0)
    && (forall s | s in m :: m[s] == |Select(unranked, WithStatus(s))|)
  }

  lemma TalliedNext(unranked: seq<Unlisted>, u: Unlisted, m: map<Scoring.Status, nat>)
    requires Tallied(unranked, m)
    ensures Tallied(unranked + [u], m[u.0 := (if u.0 in m then m[u.0] else 0) + 1])
  {
    StatusNext(unranked, u);
    hide Select, WithStatus;
  }

  lemma StatusNext(unranked: seq<Unlisted>, u: Unlisted)
    ensures forall s :: |Select(unranked + [u], WithStatus(s))|
                        == |Select(unranked, WithStatus(s))| + (if s == u.0 then 1 else 0)
  {
    forall s ensures |Select(unranked + [u], WithStatus(s))|
                     == |Select(unranked, WithStatus(s))| + (if s == u.0 then 1 else 0)
    {
      assert [u][1..] == [];
      SelectAppend(unranked, [u], WithStatus(s));
    }
  }

  method TallyStatuses(unranked: seq<Unlisted>) returns (m: map<Scoring.Status, nat>)
    ensures Tallied(unranked, m)
  {
    m := map[];
    for i := 0 to |unranked|
      invariant Tallied(unranked[..i], m)
    {
      var u := unranked[i];
      TalliedNext(unranked[..i], u, m);
      assert unranked[..i + 1] == unranked[..i] + [u];
      hide Tallied;
      m := m[u.0 := (if u.0 in m then m[u.0] else 0) + 1];
    }
    assert unranked[..|unranked|] == unranked;
  }

  /** Each candidate without a rank is counted under exactly one status. */
  lemma {:induction false} StatusesAddUp(unranked: seq<Unlisted>)
    ensures |Select(unranked, WithStatus(Scoring.Scored))| + |Select(unranked, WithStatus(Scoring.Unsupported))|
            + |Select(unranked, WithStatus(Scoring.InsufficientData))|
                + |Select(unranked, WithStatus(Scoring.Unscorable))|
            == |unranked|
  {
    if unranked != [] {
      StatusesAddUp(unranked[1..]);
    }
  }

  function PathIn(dir: string, name: string): string {
    dir + "/" + name + ".txt"
  }

  const TIER_DIR := "Subscription"
  const ULTRA_FAST := "ultra_fast"
  const GOOD_PING := "good_ping"

  /** `f` renders the entries that belong to it, in order, and reports how many they are. */
  ghost predicate Renders(lib: OutputLib, p: OutputPolicy, group: seq<Entry>, f: GroupFile) {
    RenderText(lib, group, p) == Ok(f.text) && f.count == |group|
  }

  /** One file for each group, in order of first appearance, holding the rendered filter of the entries. */
  ghost predicate FilesOf(lib: OutputLib, p: OutputPolicy, es: seq<Entry>, key: Entry -> Option<string>, dir: string,
                          files: seq<GroupFile>) {
    && |files| == |Names(es, key)|
    && forall i | 0 <= i < |files| ::
         && files[i].name == Names(es, key)[i] && files[i].path == PathIn(dir, files[i].name)
         && Renders(lib, p, Select(es, Under(key, files[i].name)), files[i])
  }

  ghost predicate Bundled(lib: OutputLib, p: OutputPolicy, es: seq<Entry>, b: Bundle) {
    && RenderText(lib, es, p) == Ok(b.allText)
    && RenderPayload(lib, es, p).Ok? && b.allBase64 == RenderBase64(RenderPayload(lib, es, p).value)
    && FilesOf(lib, p, es, ProtocolFile, "Config", b.byProtocol)
    && FilesOf(lib, p, es, TransportFile, "transports", b.byTransport)
    && FilesOf(lib, p, es, CountryFile(lib, p), "Country", b.byCountry)
    && b.ultraFast.path == PathIn(TIER_DIR, ULTRA_FAST)
       && Renders(lib, p, Select(es, Slower(p, p.ultraFastMs)), b.ultraFast)
    && b.goodPing.path == PathIn(TIER_DIR, GOOD_PING)
       && Renders(lib, p, Select(es, Slower(p, p.goodPingMs)), b.goodPing)
    && b.nodes == |es|
  }

  ghost predicate Renderable(lib: OutputLib, p: OutputPolicy, es: seq<Entry>) {
    forall e | e in es :: RenderLink(lib, e, p).Ok?
  }

  lemma {:induction false} LinksExactly(lib: OutputLib, es: seq<Entry>, p: OutputPolicy)
    ensures Links(lib, es, p).Ok? <==> Renderable(lib, p, es)
  {
    hide RenderLink;
    if es != [] {
      LinksExactly(lib, es[1..], p);
      assert forall e :: e in es <==> e == es[0] || e in es[1..];
    }
  }

  method RenderGroup(lib: OutputLib, p: OutputPolicy, name: string, path: string, group: seq<Entry>)
    returns (r: Result<GroupFile, OutputError>)
    ensures r.Ok? <==> Renderable(lib, p, group)
    ensures r.Err? ==> r.error in {NoRawUrl, UnsafeText}
    ensures r.Ok? ==> r.value.name == name && r.value.path == path && Renders(lib, p, group, r.value)
  {
    hide Links;
    LinksExactly(lib, group, p);
    var text := RenderText(lib, group, p);
    if text.Err? {
      return Err(text.error);
    }
    return Ok(GroupFile(name, path, text.value, |group|));
  }

  method RenderGroups(lib: OutputLib, p: OutputPolicy, es: seq<Entry>, key: Entry -> Option<string>, dir: string)
    returns (r: Result<seq<GroupFile>, OutputError>)
    ensures Renderable(lib, p, es) ==> r.Ok?
    ensures r.Err? ==> r.error in {NoRawUrl, UnsafeText}
    ensures r.Ok? ==> FilesOf(lib, p, es, key, dir, r.value)
  {
    hide Renders, RenderLink;
    var order, groups := GroupBy(es, key);
    var files: seq<GroupFile> := [];
    for i := 0 to |order|
      invariant |files| == i
      invariant forall k | 0 <= k < i ::
                  && files[k].name == order[k] && files[k].path == PathIn(dir, order[k])
                  && Renders(lib, p, Select(es, Under(key, order[k])), files[k])
    {
      var f := RenderGroup(lib, p, order[i], PathIn(dir, order[i]), groups[order[i]]);
      if f.Err? {
        return Err(f.error);
      }
      files := files + [f.value];
    }
    return Ok(files);
  }

  /**
   * `build_outputs`: refused exactly when the policy is, or else some link; otherwise every
   * file is the rendered filter of the entries, and the candidates without a rank are counted.
   */
  method BuildOutputs(lib: OutputLib, es: seq<Entry>, unranked: seq<Unlisted>, p: OutputPolicy)
    returns (r: Result<Bundle, OutputError>)
    ensures r == Err(BadPolicy) <==> !AcceptedPolicy(p)
    ensures r.Ok? <==> AcceptedPolicy(p) && Renderable(lib, p, es)
    ensures r.Ok? ==>
              Bundled(lib, p, es, r.value) && r.value.unranked == unranked && Tallied(unranked, r.value.byStatus)
  {
    hide Renders, FilesOf, Renderable, Links, RenderBase64, RenderText, Tallied, AcceptedPolicy;
    if !AcceptedPolicy(p) {
      return Err(BadPolicy);
    }
    LinksExactly(lib, es, p);
    var byProtocol := RenderGroups(lib, p, es, ProtocolFile, "Config");
    if byProtocol.Err? { return Err(byProtocol.error); }
    var byTransport := RenderGroups(lib, p, es, TransportFile, "transports");
    if byTransport.Err? { return Err(byTransport.error); }
    var byCountry := RenderGroups(lib, p, es, CountryFile(lib, p), "Country");
    if byCountry.Err? { return Err(byCountry.error); }
    var ultra, good := PingTiers(es, p);
    PartRenderable(lib, p, es, Slower(p, p.ultraFastMs));
    PartRenderable(lib, p, es, Slower(p, p.goodPingMs));
    var ultraFast := RenderGroup(lib, p, ULTRA_FAST, PathIn(TIER_DIR, ULTRA_FAST), ultra);
    if ultraFast.Err? { return Err(ultraFast.error); }
    var goodPing := RenderGroup(lib, p, GOOD_PING, PathIn(TIER_DIR, GOOD_PING), good);
    if goodPing.Err? { return Err(goodPing.error); }
    TextExactly(lib, p, es);
    var all := RenderText(lib, es, p);
    if all.Err? { return Err(all.error); }
    var payload := RenderPayload(lib, es, p);
    var byStatus := TallyStatuses(unranked);
    return Ok(Bundle(all.value, RenderBase64(payload.value), byProtocol.value, byTransport.value, byCountry.value,
                     ultraFast.value, goodPing.value, |es|, unranked, byStatus));
  }

  lemma TextExactly(lib: OutputLib, p: OutputPolicy, es: seq<Entry>)
    ensures RenderText(lib, es, p).Ok? <==> Renderable(lib, p, es)
    ensures RenderPayload(lib, es, p).Ok? <==> Renderable(lib, p, es)
  {
    LinksExactly(lib, es, p);
  }

  lemma PartRenderable(lib: OutputLib, p: OutputPolicy, es: seq<Entry>, q: Entry -> bool)
    ensures Renderable(lib, p, es) ==> Renderable(lib, p, Select(es, q))
  {
  }

  /** Reported counts are line counts: every file holds one nonempty line for each of its entries. */
  lemma CountsAreLines(lib: OutputLib, p: OutputPolicy, group: seq<Entry>, f: GroupFile)
    requires ValidPolicy(p) && Renders(lib, p, group, f)
    requires forall e | e in group && FallsBack(lib, e, p) :: OneLine(e.node.rawUrl)
    ensures |Lines(f.text, p.lineSeparator)| == f.count
    ensures forall k | 0 <= k < f.count :: RenderLink(lib, group[k], p) == Ok(Lines(f.text, p.lineSeparator)[k])
  {
    hide RenderLink, FallsBack, Links, Lines, FileText;
    var links := Links(lib, group, p).value;
    RenderedFramed(lib, group, p);
    LinksSize(lib, group, p);
    FileRoundTrip(links, p);
    forall k | 0 <= k < f.count ensures RenderLink(lib, group[k], p) == Ok(links[k]) {
      LinksAt(lib, group, p, k);
    }
  }

  /** Each file of a list holds as many lines as the bundle reports for it. */
  ghost predicate LinesCounted(p: OutputPolicy, files: seq<GroupFile>)
    requires ValidPolicy(p)
  {
    forall k | 0 <= k < |files| :: |Lines(files[k].text, p.lineSeparator)| == files[k].count
  }

  /** Every text file of the bundle, the whole list included. */
  ghost predicate BundleCounted(p: OutputPolicy, b: Bundle)
    requires ValidPolicy(p)
  {
    && |Lines(b.allText, p.lineSeparator)| == b.nodes
    && LinesCounted(p, b.byProtocol) && LinesCounted(p, b.byTransport) && LinesCounted(p, b.byCountry)
    && LinesCounted(p, [b.ultraFast, b.goodPing])
  }

  lemma FilesCounted(lib: OutputLib, p: OutputPolicy, es: seq<Entry>, key: Entry -> Option<string>, dir: string,
                     files: seq<GroupFile>)
    requires ValidPolicy(p) && FilesOf(lib, p, es, key, dir, files)
    requires forall e | e in es && FallsBack(lib, e, p) :: OneLine(e.node.rawUrl)
    ensures LinesCounted(p, files)
  {
    hide Renders, Lines, FallsBack, OneLine, Names, Under;
    forall k | 0 <= k < |files| ensures |Lines(files[k].text, p.lineSeparator)| == files[k].count {
      CountsAreLines(lib, p, Select(es, Under(key, files[k].name)), files[k]);
    }
  }

  /** All reported counts of a bundle are line counts. */
  lemma BundleLines(lib: OutputLib, p: OutputPolicy, es: seq<Entry>, b: Bundle)
    requires ValidPolicy(p) && Bundled(lib, p, es, b)
    requires forall e | e in es && FallsBack(lib, e, p) :: OneLine(e.node.rawUrl)
    ensures BundleCounted(p, b)
  {
    hide Lines, FallsBack, OneLine, FilesOf, RenderText, RenderPayload, RenderBase64, Slower, LinesCounted;
    FilesCounted(lib, p, es, ProtocolFile, "Config", b.byProtocol);
    FilesCounted(lib, p, es, TransportFile, "transports", b.byTransport);
    FilesCounted(lib, p, es, CountryFile(lib, p), "Country", b.byCountry);
    CountsAreLines(lib, p, es, GroupFile("all", "all.txt", b.allText, b.nodes));
    CountsAreLines(lib, p, Select(es, Slower(p, p.ultraFastMs)), b.ultraFast);
    CountsAreLines(lib, p, Select(es, Slower(p, p.goodPingMs)), b.goodPing);
    TwoCounted(p, b.ultraFast, b.goodPing);
  }

  lemma TwoCounted(p: OutputPolicy, x: GroupFile, y: GroupFile)
    requires ValidPolicy(p) && |Lines(x.text, p.lineSeparator)| == x.count
             && |Lines(y.text, p.lineSeparator)| == y.count
    ensures LinesCounted(p, [x, y])
  {
  }
}
