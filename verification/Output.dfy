/** Rendering: links, line-oriented files, their base64 payload, groups and tiers. */
module Output {
  import opened Common
  import opened Numbers
  import opened Model
  import opened Text
  import opened Sorting
  import opened Encoding
  import opened Scoring

  datatype PingSource = MeasuredPing | TcpConnectPing

  datatype FileNaming = Sanitized | AlnumLower

  /** A validated output policy. */
  datatype OutputPolicy = OutputPolicy(
    lineSeparator: string, trailingNewline: bool, payloadSeparator: string, channelTag: string,
    pingSources: seq<PingSource>, unknownPing: bool, unknownArch: bool, countryFilename: FileNaming,
    pingDecimals: nat, vmessNameField: string, ultraFastMs: real, goodPingMs: real)

  const CRLF := "\r\n"
  const LF := "\n"
  const UNKNOWN_TEXT := "Unknown"
  const DEFAULT_FLAG := "\U{1F310}"
  const UNKNOWN_COUNTRY_KEYS: set<string> := {"global", "other", "unknown"}

  ghost predicate ValidPolicy(p: OutputPolicy) {
    p.lineSeparator in {CRLF, LF} && p.payloadSeparator in {CRLF, LF}
  }

  /** What the validation of a policy asks besides: a source for the displayed latency, and at most six decimals. */
  predicate AcceptedPolicy(p: OutputPolicy) {
    p.lineSeparator in {CRLF, LF} && p.payloadSeparator in {CRLF, LF} && p.pingSources != [] && p.pingDecimals <= 6
  }

  /** Library facts: text methods, `re` classes, flags, number formatting, and the vmess JSON rewriter. */
  datatype OutputLib = OutputLib(
    space: char -> bool,
    lower: string -> string,
    upper: string -> string,
    isAlpha: string -> bool,
    isAlnum: char -> bool,
    wordOrSpace: char -> bool,
    flagOf: string -> string,
    format: (real, nat) -> string,
    vmessJson: (string, string, string) -> Option<string>)

  datatype Entry = Entry(node: Node, outcome: ScoreOutcome)

  datatype OutputError = BadPolicy | NoRawUrl | UnsafeText

  // ---------------------------------------------------------------------------
  // Display fields
  // ---------------------------------------------------------------------------

  function Trimmed(lib: OutputLib, s: string): string {
    Strip(s, lib.space)
  }

  function GeoFlag(lib: OutputLib, n: Node): string {
    if n.geo.None? then DEFAULT_FLAG
    else
      var flag := Trimmed(lib, n.geo.value.flag);
      var code := lib.upper(Trimmed(lib, n.geo.value.countryCode));
      if flag != "" && flag != DEFAULT_FLAG then flag
      else if |code| == 2 && lib.isAlpha(code) && code != "XX" then lib.flagOf(code)
      else DEFAULT_FLAG
  }

  function OrUnknown(s: string): string {
    if s != "" then s else UNKNOWN_TEXT
  }

  function GeoCountry(lib: OutputLib, n: Node): string {
    if n.geo.None? then UNKNOWN_TEXT else OrUnknown(Trimmed(lib, n.geo.value.country))
  }

  function GeoCity(lib: OutputLib, n: Node): string {
    if n.geo.None? then UNKNOWN_TEXT else OrUnknown(Trimmed(lib, n.geo.value.city))
  }

  function SampleMs(o: Option<LatencySample>, kind: LatencyKind): Option<real> {
    if o.Some? && o.value.kind == kind && o.value.valueMs.Some? && o.value.valueMs.value.Fin?
        && o.value.valueMs.value.r >= 0.0
    then Some(o.value.valueMs.value.r) else None
  }

  /** The latency to display: the first source that has one; never a handshake sample, never an invented value. */
  function DisplayPing(n: Node, sources: seq<PingSource>): Option<real> {
    if sources == [] then None
    else
      var v := match sources[0]
        case MeasuredPing => SampleMs(n.measuredLatency, MEASURED)
        case TcpConnectPing => SampleMs(n.tcpConnect, TCP_CONNECT);
      if v.Some? then v else DisplayPing(n, sources[1..])
  }

  function ArchLabel(lib: OutputLib, o: ScoreOutcome): Option<string> {
    if o.components.None? || Trimmed(lib, o.components.value.archLabel) == "" then None
    else Some(Trimmed(lib, o.components.value.archLabel))
  }

  function BrandName(lib: OutputLib, e: Entry, p: OutputPolicy): (name: string)
    ensures name != ""
  {
    var ping := DisplayPing(e.node, p.pingSources);
    var arch := ArchLabel(lib, e.outcome);
    "\U{1F449}\U{1F194}@" + p.channelTag
    + "\U{1F4E1}" + GeoFlag(lib, e.node)
    + "\U{AE}\U{FE0F}" + GeoCountry(lib, e.node)
    + "\U{A9}\U{FE0F}" + GeoCity(lib, e.node)
    + (if ping.Some? then "\U{1F17F}\U{FE0F}ping:" + lib.format(ping.value, p.pingDecimals) + "ms"
       else if p.unknownPing then "\U{1F17F}\U{FE0F}ping:" + UNKNOWN_TEXT else "")
    + (if arch.Some? then "\U{26A1}\U{FE0F}" + arch.value
       else if p.unknownArch then "\U{26A1}\U{FE0F}" + UNKNOWN_TEXT else "")
  }

  // ---------------------------------------------------------------------------
  // Links
  // ---------------------------------------------------------------------------

  predicate Control(c: char) {
    c < ' ' || c as int == 127
  }

  predicate Controlled(s: string) {
    exists k :: 0 <= k < |s| && Control(s[k])
  }

  /** The raw link without its fragment; refused when empty or with a control character. */
  function LinkBody(n: Node): (r: Result<string, OutputError>)
    ensures r.Err? ==> r.error in {NoRawUrl, UnsafeText}
  {
    var body := Before(n.rawUrl, '#');
    if body == "" then Err(NoRawUrl) else if Controlled(body) then Err(UnsafeText) else Ok(body)
  }

  const VMESS_PREFIX := "vmess://"

  /** What follows the prefix, in any case; all of it without one. */
  function VmessPayload(lib: OutputLib, body: string): string {
    var head := if |body| > 8 then body[..8] else body;
    if lib.lower(head) == VMESS_PREFIX then body[|head|..] else body
  }

  /** A vmess body under a new name: its JSON rewritten and encoded again; `None` if it is not a JSON object. */
  function VmessRenamed(lib: OutputLib, body: string, name: string, p: OutputPolicy): Option<string> {
    match lib.vmessJson(VmessPayload(lib, body), name, p.vmessNameField)
    case None => None
    case Some(text) => Some(Base64(Utf8(text)))
  }

  /** One output line. */
  function RenderLink(lib: OutputLib, e: Entry, p: OutputPolicy): (r: Result<string, OutputError>)
    ensures r.Err? <==> LinkBody(e.node).Err?
    ensures r.Err? ==> r.error in {NoRawUrl, UnsafeText}
  {
    match LinkBody(e.node)
    case Err(error) => Err(error)
    case Ok(body) =>
      var name := BrandName(lib, e, p);
      if e.node.protocol == VMESS then
        match VmessRenamed(lib, body, name, p)
        case None => Ok(e.node.rawUrl)
        case Some(encoded) => Ok(VMESS_PREFIX + encoded)
      else Ok(body + "#" + Quote(name))
  }

  predicate OneLine(s: string) {
    Free(s, '\r') && Free(s, '\n')
  }

  /** The vmess fallback: the link could not be renamed and is emitted whole. */
  predicate FallsBack(lib: OutputLib, e: Entry, p: OutputPolicy) {
    && e.node.protocol == VMESS && LinkBody(e.node).Ok?
    && VmessRenamed(lib, LinkBody(e.node).value, BrandName(lib, e, p), p).None?
  }

  lemma BodyIsLine(n: Node)
    requires LinkBody(n).Ok?
    ensures OneLine(LinkBody(n).value) && LinkBody(n).value != ""
  {
    var body := LinkBody(n).value;
    assert forall k | 0 <= k < |body| :: !Control(body[k]);
  }

  /**
   * A rendered link is one line, with a single exception: a vmess link that cannot be
   * renamed is emitted with its fragment unchecked, so it breaks the line exactly when
   * its raw text does.
   */
  lemma LinkIsLineExactly(lib: OutputLib, e: Entry, p: OutputPolicy)
    requires RenderLink(lib, e, p).Ok?
    ensures RenderLink(lib, e, p).value != ""
    ensures OneLine(RenderLink(lib, e, p).value) <==> FallsBack(lib, e, p) ==> OneLine(e.node.rawUrl)
  {
    hide BrandName, Quote, Base64, Utf8, OneLine;
    var name := BrandName(lib, e, p);
    BodyIsLine(e.node);
    var body := LinkBody(e.node).value;
    if e.node.protocol != VMESS {
      QuotedIsLine(body, name);
    } else if VmessRenamed(lib, body, name, p).Some? {
      EncodedIsLine(Utf8(lib.vmessJson(VmessPayload(lib, body), name, p.vmessNameField).value));
    }
  }

  lemma QuotedIsLine(body: string, name: string)
    requires OneLine(body)
    ensures OneLine(body + "#" + Quote(name))
  {
    hide Quote;
    assert forall k | 0 <= k < |Quote(name)| :: '%' <= Quote(name)[k] <= '~';
  }

  lemma EncodedIsLine(data: seq<byte>)
    ensures OneLine(VMESS_PREFIX + Base64(data))
  {
    Base64OneLine(data);
    hide Base64;
  }

  // ---------------------------------------------------------------------------
  // Files
  // ---------------------------------------------------------------------------

  /** The links of a file, unless one of them is refused. */
  function Links(lib: OutputLib, es: seq<Entry>, p: OutputPolicy): (r: Result<seq<string>, OutputError>)
    ensures r.Err? ==> r.error in {NoRawUrl, UnsafeText}
  {
    if es == [] then Ok([])
    else
      match RenderLink(lib, es[0], p)
      case Err(error) => Err(error)
      case Ok(link) =>
        match Links(lib, es[1..], p)
        case Err(error) => Err(error)
        case Ok(rest) => Ok([link] + rest)
  }

  function FileText(links: seq<string>, p: OutputPolicy): string {
    Join(links, p.lineSeparator) + (if p.trailingNewline then p.lineSeparator else "")
  }

  function RenderText(lib: OutputLib, es: seq<Entry>, p: OutputPolicy): (r: Result<string, OutputError>)
    ensures r.Err? ==> r.error in {NoRawUrl, UnsafeText}
  {
    match Links(lib, es, p)
    case Err(error) => Err(error)
    case Ok(links) => Ok(FileText(links, p))
  }

  function RenderPayload(lib: OutputLib, es: seq<Entry>, p: OutputPolicy): Result<string, OutputError> {
    match Links(lib, es, p)
    case Err(error) => Err(error)
    case Ok(links) => Ok(Join(links, p.payloadSeparator))
  }

  /** `render_base64`. */
  function RenderBase64(payload: string): string {
    Base64(Utf8(payload))
  }

  lemma {:induction false} LinksAt(lib: OutputLib, es: seq<Entry>, p: OutputPolicy, k: nat)
    requires Links(lib, es, p).Ok? && k < |es|
    ensures |Links(lib, es, p).value| == |es| && RenderLink(lib, es[k], p) == Ok(Links(lib, es, p).value[k])
  {
    hide RenderLink;
    if k > 0 {
      LinksAt(lib, es[1..], p, k - 1);
    } else if es[1..] != [] {
      LinksAt(lib, es[1..], p, 0);
    }
  }

  lemma {:induction false} LinksSize(lib: OutputLib, es: seq<Entry>, p: OutputPolicy)
    requires Links(lib, es, p).Ok?
    ensures |Links(lib, es, p).value| == |es|
  {
    if es != [] {
      LinksAt(lib, es, p, 0);
    }
  }

  // ---------------------------------------------------------------------------
  // Framing
  // ---------------------------------------------------------------------------

  /** The nonempty lines of a file. */
  function Lines(text: string, separator: string): seq<string>
    requires separator != ""
  {
    Select(Split(text, separator), line => line != "")
  }

  ghost predicate Framed(links: seq<string>) {
    forall k | 0 <= k < |links| :: OneLine(links[k]) && links[k] != ""
  }

  lemma {:induction false} SelectAll(links: seq<string>)
    requires forall k | 0 <= k < |links| :: links[k] != ""
    ensures Select(links, line => line != "") == links
  {
    if links != [] {
      SelectAll(links[1..]);
      assert links == [links[0]] + links[1..];
    }
  }

  lemma {:induction false} JoinSnoc(parts: seq<string>, last: string, sep: string)
    requires parts != []
    ensures Join(parts + [last], sep) == Join(parts, sep) + sep + last
  {
    if |parts| == 1 {
      assert (parts + [last])[1..] == [last];
    } else {
      JoinSnoc(parts[1..], last, sep);
      assert (parts + [last])[1..] == parts[1..] + [last];
      assert parts[0] + sep + (Join(parts[1..], sep) + sep + last)
             == parts[0] + sep + Join(parts[1..], sep) + sep + last;
    }
  }

  /** A file is its links, each followed by the separator. */
  lemma FileJoin(links: seq<string>, p: OutputPolicy)
    requires links != [] && p.trailingNewline
    ensures FileText(links, p) == Join(links + [""], p.lineSeparator)
  {
    JoinSnoc(links, "", p.lineSeparator);
  }

  lemma SplitFile(links: seq<string>, p: OutputPolicy)
    requires ValidPolicy(p) && Framed(links)
    ensures Split(FileText(links, p), p.lineSeparator)
            == if links == [] then (if p.trailingNewline then ["", ""] else [""])
               else if p.trailingNewline then links + [""] else links
  {
    var sep := p.lineSeparator;
    assert sep != "" && (sep[0] == '\r' || sep[0] == '\n');
    if links == [] {
      var blanks := if p.trailingNewline then ["", ""] else [""];
      assert FileText(links, p) == Join(blanks, sep);
      SplitJoin(blanks, sep);
    } else {
      var parts := if p.trailingNewline then links + [""] else links;
      assert FileText(links, p) == Join(parts, sep) by {
        if p.trailingNewline { FileJoin(links, p); }
      }
      assert forall k | 0 <= k < |parts| :: Free(parts[k], sep[0]);
      SplitJoin(parts, sep);
    }
  }

  /** Splitting the plain text recovers exactly the links. */
  lemma FileRoundTrip(links: seq<string>, p: OutputPolicy)
    requires ValidPolicy(p) && Framed(links)
    ensures Lines(FileText(links, p), p.lineSeparator) == links
  {
    SplitFile(links, p);
    SelectAll(links);
    SelectAppend(links, [""], line => line != "");
    var keep := (line: string) => line != "";
    assert Select([""], keep) == [];
    assert Select(["", ""], keep) == Select(["", ""][1..], keep) && ["", ""][1..] == [""];
    assert links + [] == links;
  }

  /** `text.replace("\r\n", "\n")`. */
  function Unixed(text: string): string {
    Join(Split(text, CRLF), LF)
  }

  lemma {:induction false} JoinFree(parts: seq<string>, sep: string, c: char)
    requires Free(sep, c) && forall k | 0 <= k < |parts| :: Free(parts[k], c)
    ensures Free(Join(parts, sep), c)
  {
    if |parts| > 1 {
      JoinFree(parts[1..], sep, c);
    }
  }

  /** Whatever the line separator, only line feeds are left. */
  lemma JoinUnixed(parts: seq<string>, sep: string)
    requires parts != [] && sep in {CRLF, LF} && forall k | 0 <= k < |parts| :: OneLine(parts[k])
    ensures Unixed(Join(parts, sep)) == Join(parts, LF)
  {
    if sep == CRLF {
      SplitJoin(parts, CRLF);
    } else {
      JoinFree(parts, LF, '\r');
      SplitNone(Join(parts, LF), CRLF);
    }
  }

  /** The lines of a file, with the empty one after a last separator. */
  function Padded(links: seq<string>, trailing: bool): (parts: seq<string>)
    ensures parts != []
  {
    (if links == [] then [""] else links) + (if trailing then [""] else [])
  }

  lemma PaddedJoin(links: seq<string>, sep: string, trailing: bool)
    ensures Join(Padded(links, trailing), sep) == Join(links, sep) + (if trailing then sep else "")
  {
    var base := if links == [] then [""] else links;
    assert base + [] == base;
    if trailing {
      JoinSnoc(base, "", sep);
    }
    assert Join([""], sep) == "" == Join([], sep);
  }

  /**
   * Decoding the base64 artifact gives its payload back; the payload holds exactly the
   * links, and is the text file up to CRLF for LF and one last line break.
   */
  lemma PayloadRoundTrip(links: seq<string>, p: OutputPolicy)
    requires ValidPolicy(p) && Framed(links)
    ensures var payload := Join(links, p.payloadSeparator);
            && StrictDecode(RenderBase64(payload)) == Some(Utf8(payload)) && Utf8Decode(Utf8(payload)) == Some(payload)
            && Lines(payload, p.payloadSeparator) == links
            && Unixed(FileText(links, p)) == Unixed(payload) + (if p.trailingNewline then LF else "")
            && (p.payloadSeparator == LF ==> Unixed(payload) == payload)
  {
    var payload := Join(links, p.payloadSeparator);
    Base64RoundTrip(Utf8(payload));
    Utf8RoundTrip(payload);
    hide Split, StrictDecode, Base64, Utf8, Utf8Decode, Select;
    assert Lines(payload, p.payloadSeparator) == links by {
      FileRoundTrip(links, p.(lineSeparator := p.payloadSeparator, trailingNewline := false));
      assert payload + "" == payload;
    }
    var whole, bare := Padded(links, p.trailingNewline), Padded(links, false);
    assert bare + [] == bare;
    PaddedJoin(links, p.lineSeparator, p.trailingNewline);
    PaddedJoin(links, LF, p.trailingNewline);
    PaddedJoin(links, p.payloadSeparator, false);
    PaddedJoin(links, LF, false);
    JoinUnixed(whole, p.lineSeparator);
    JoinUnixed(bare, p.payloadSeparator);
    hide Unixed, Padded;
    assert payload + "" == payload && Join(links, LF) + "" == Join(links, LF);
  }

  /** What is published is framed, unless a vmess link fell back to a raw text with a line break. */
  lemma RenderedFramed(lib: OutputLib, es: seq<Entry>, p: OutputPolicy)
    requires Links(lib, es, p).Ok?
    requires forall e | e in es && FallsBack(lib, e, p) :: OneLine(e.node.rawUrl)
    ensures Framed(Links(lib, es, p).value)
  {
    hide Links, RenderLink, FallsBack, OneLine;
    var links := Links(lib, es, p).value;
    LinksSize(lib, es, p);
    forall k | 0 <= k < |links| ensures OneLine(links[k]) && links[k] != "" {
      LinksAt(lib, es, p, k);
      LinkIsLineExactly(lib, es[k], p);
      assert es[k] in es;
    }
  }
}
