/**
 * The live stages: each takes the surviving wrappers in order, asks the outside world
 * about each one, and returns the survivors and one report for every input.
 */
module Stages {
  import opened Common
  import opened Numbers
  import opened Model
  import opened Text
  import opened Ingest
  import Measure

  datatype Stage = INGEST | DEDUP | DNS | GEO | TCP | HANDSHAKE | MEASURE | SCORE | RANK | OUTPUT | WRITE

  /** One wrapper through one stage: kept with a possibly updated node, or lost for a reason. */
  datatype Step = Keep(node: Node, note: string) | Lose(reason: string)

  datatype Report = Report(origin: string, lineNo: int, protocol: Protocol, endpoint: string, lineHash: string,
                           failed: bool, stage: Stage, reason: string)

  const REASON_TRIM := 120

  function Trim(s: string): string {
    if |s| > REASON_TRIM then s[..REASON_TRIM] else s
  }

  function EndpointText(n: Node): string {
    var host := n.endpoint.host;
    if host == "" then ""
    else if Has(host, ':') then "[" + host + "]:" + Integer(n.endpoint.port)
    else host + ":" + Integer(n.endpoint.port)
  }

  function ReportOf(w: IngestedNode, stage: Stage, step: Step): Report {
    Report(w.origin.name, w.lineNo, w.node.protocol, EndpointText(w.node), w.lineHash, step.Lose?, stage,
           if step.Lose? then step.reason else step.note)
  }

  // ---------------------------------------------------------------------------
  // What every stage does with its list
  // ---------------------------------------------------------------------------

  function Next(w: IngestedNode, step: Step): seq<IngestedNode> {
    if step.Keep? then [w.(node := step.node)] else []
  }

  /** The survivors, in order, each with its own origin, line and hash. */
  function Survivors(ws: seq<IngestedNode>, step: IngestedNode -> Step): seq<IngestedNode> {
    if ws == [] then [] else Survivors(ws[..|ws| - 1], step) + Next(ws[|ws| - 1], step(ws[|ws| - 1]))
  }

  function Reports(ws: seq<IngestedNode>, stage: Stage, step: IngestedNode -> Step): (r: seq<Report>)
    ensures |r| == |ws| && forall i | 0 <= i < |r| :: r[i] == ReportOf(ws[i], stage, step(ws[i]))
  {
    seq(|ws|, i requires 0 <= i < |ws| => ReportOf(ws[i], stage, step(ws[i])))
  }

  lemma SurvivorsSnoc(ws: seq<IngestedNode>, w: IngestedNode, step: IngestedNode -> Step)
    ensures Survivors(ws + [w], step) == Survivors(ws, step) + Next(w, step(w))
  {
    assert (ws + [w])[..|ws|] == ws;
  }

  /** Where a survivor comes from. */
  lemma {:induction false} SurvivorFrom(ws: seq<IngestedNode>, step: IngestedNode -> Step, v: IngestedNode)
    ensures v in Survivors(ws, step) <==>
              exists w :: w in ws && step(w).Keep? && v == w.(node := step(w).node)
  {
    if ws != [] {
      SurvivorFrom(ws[..|ws| - 1], step, v);
      assert ws == ws[..|ws| - 1] + [ws[|ws| - 1]];
    }
  }

  // ---------------------------------------------------------------------------
  // What the world answers, and what each stage makes of it
  // ---------------------------------------------------------------------------

  /** A resolver call: an exception, or a record with its public addresses and a short error. */
  datatype Lookup = LookupRaised | Looked(ok: bool, publicIps: seq<string>, why: string)

  /** A validator call: an exception, a refusal, or success. */
  datatype Dial = DialRaised(reason: string) | DialRefused(reason: string) | Dialled(sample: LatencySample,
        pin: Option<string>)

  datatype Shake = ShakeRaised(reason: string) | ShakeRefused(reason: string) | Shaken(sample: Option<LatencySample>)

  datatype Probe = ProbeRaised(reason: string) | Probed(session: Measure.Session)

  /** Everything a run is given: absent components degrade, present ones answer about each wrapper. */
  datatype World = World(
    lib: NameLib,
    isLiteral: string -> bool,
    resolver: Option<IngestedNode -> Lookup>,
    geo: Option<IngestedNode -> GeoInfo>,
    tcp: Option<IngestedNode -> Dial>,
    handshake: Option<IngestedNode -> Shake>,
    measurer: Option<IngestedNode -> Probe>,
    probes: Measure.ProbeFacts,
    credentialProbe: bool)

  function Pinned(world: World, n: Node, ip: string): Option<Node> {
    match MakeEndpoint(world.lib, n.endpoint.host, n.endpoint.port, Some(ip))
    case None => None
    case Some(ep) => Some(n.(endpoint := ep))
  }

  function StripBrackets(s: string): string {
    Strip(s, c => c == '[' || c == ']')
  }

  /**
   * DNS: literals pin themselves, everything else needs a public address.  An endpoint's
   * port is always in range, and a literal is never blank.  A blank name is answered
   * `empty_host` by the resolver itself, whatever the transport would say.
   */
  function DnsStep(world: World, w: IngestedNode): Step {
    var n := w.node;
    var host := n.endpoint.host;
    if Strip(host, world.lib.space) != "" && 0 < n.endpoint.port < 65536 && world.isLiteral(StripBrackets(host)) then
      Keep(Pinned(world, n, StripBrackets(host)).value, "")
    else if world.resolver.None? then Lose("dns_no_resolver")
    else
      match world.resolver.value(w)
      case LookupRaised => Lose("resolver_error")
      case Looked(ok, publicIps, why) =>
        if ok && publicIps != [] && Pinned(world, n, publicIps[0]).Some?
          then Keep(Pinned(world, n, publicIps[0]).value, "")
        else if ok && publicIps != [] then Lose("empty_host")
        else Lose(Trim(why))
  }

  function GeoName(g: GeoInfo, base: string): string {
    var prefix := g.flag + g.country + "\U{B7}" + g.city;
    var name := if base != "" then prefix + "|" + base else prefix;
    if |name| > 256 then name[..256] else name
  }

  function GeoStep(world: World, w: IngestedNode): Step {
    if world.geo.None? then Keep(w.node, "geo_provider_absent")
    else
      var g := world.geo.value(w);
      Keep(w.node.(geo := Some(g), outputName := GeoName(g, w.node.outputName)), "")
  }

  /** TCP: a refused or failing dial loses the node; a literal address that answered is pinned. */
  function TcpStep(world: World, w: IngestedNode): Step {
    if world.tcp.None? then Keep(w.node, "tcp_validator_absent")
    else
      match world.tcp.value(w)
      case DialRaised(reason) => Lose(Trim(reason))
      case DialRefused(reason) => Lose(Trim(if reason == "" then "tcp_failed" else reason))
      case Dialled(sample, pin) =>
        match w.node.WithTcpConnect(sample)
        case Err(_) => Lose("ValueError")
        case Ok(n) =>
          if pin.None? then Keep(n, "")
          else if Pinned(world, n, pin.value).None? then Lose("ValueError")
          else Keep(Pinned(world, n, pin.value).value, "")
  }

  function HandshakeStep(world: World, w: IngestedNode): Step {
    if world.handshake.None? then Keep(w.node, "handshake_validator_absent")
    else
      match world.handshake.value(w)
      case ShakeRaised(reason) => Lose(Trim(reason))
      case ShakeRefused(reason) => Lose(Trim(reason))
      case Shaken(None) => Keep(w.node, "")
      case Shaken(Some(sample)) =>
        match w.node.WithHandshake(sample)
        case Err(_) => Lose("ValueError")
        case Ok(n) => Keep(n, "")
  }

  /** Measurement: the node must come back with a measured sample. */
  ghost function MeasureStep(world: World, w: IngestedNode): Step {
    if world.measurer.None? then Keep(w.node, "measurer_absent")
    else
      match world.measurer.value(w)
      case ProbeRaised(reason) => Lose(Trim(reason))
      case Probed(session) =>
        var n := Measure.Attached(world.probes, w.node, world.credentialProbe, session);
        if n.measuredLatency.None? then Lose("no_measured_sample") else Keep(n, "")
  }

  function DnsSteps(world: World): IngestedNode -> Step { w => DnsStep(world, w) }
  function GeoSteps(world: World): IngestedNode -> Step { w => GeoStep(world, w) }
  function TcpSteps(world: World): IngestedNode -> Step { w => TcpStep(world, w) }
  function HandshakeSteps(world: World): IngestedNode -> Step { w => HandshakeStep(world, w) }
  ghost function MeasureSteps(world: World): IngestedNode -> Step { w => MeasureStep(world, w) }

  // ---------------------------------------------------------------------------
  // The stage loops
  // ---------------------------------------------------------------------------

  /** `_resolve_nodes`. */
  method ResolveNodes(world: World, ws: seq<IngestedNode>) returns (kept: seq<IngestedNode>, reports: seq<Report>)
    ensures kept == Survivors(ws, DnsSteps(world)) && reports == Reports(ws, DNS, DnsSteps(world))
  {
    hide DnsStep, ReportOf;
    kept, reports := [], [];
    for i := 0 to |ws|
      invariant kept == Survivors(ws[..i], DnsSteps(world)) && reports == Reports(ws[..i], DNS, DnsSteps(world))
    {
      var w := ws[i];
      var step := DnsStep(world, w);
      reports := reports + [ReportOf(w, DNS, step)];
      if step.Keep? {
        kept := kept + [w.(node := step.node)];
      }
      assert ws[..i + 1] == ws[..i] + [w];
      SurvivorsSnoc(ws[..i], w, DnsSteps(world));
    }
    assert ws[..|ws|] == ws;
  }

  /** `_geo_stage`: loses nobody. */
  method GeoStage(world: World, ws: seq<IngestedNode>) returns (kept: seq<IngestedNode>, reports: seq<Report>)
    ensures kept == Survivors(ws, GeoSteps(world)) && reports == Reports(ws, GEO, GeoSteps(world))
    ensures |kept| == |ws|
  {
    hide GeoName, ReportOf;
    kept, reports := [], [];
    for i := 0 to |ws|
      invariant kept == Survivors(ws[..i], GeoSteps(world)) && reports == Reports(ws[..i], GEO, GeoSteps(world))
      invariant |kept| == i
    {
      var w := ws[i];
      var step := GeoStep(world, w);
      reports := reports + [ReportOf(w, GEO, step)];
      kept := kept + [w.(node := step.node)];
      assert ws[..i + 1] == ws[..i] + [w];
      SurvivorsSnoc(ws[..i], w, GeoSteps(world));
    }
    assert ws[..|ws|] == ws;
  }

  /** `_tcp_stage`. */
  method TcpStage(world: World, ws: seq<IngestedNode>) returns (kept: seq<IngestedNode>, reports: seq<Report>)
    ensures kept == Survivors(ws, TcpSteps(world)) && reports == Reports(ws, Stage.TCP, TcpSteps(world))
  {
    hide TcpStep, ReportOf;
    kept, reports := [], [];
    for i := 0 to |ws|
      invariant kept == Survivors(ws[..i], TcpSteps(world)) && reports == Reports(ws[..i], Stage.TCP, TcpSteps(world))
    {
      var w := ws[i];
      var step := TcpStep(world, w);
      reports := reports + [ReportOf(w, Stage.TCP, step)];
      if step.Keep? {
        kept := kept + [w.(node := step.node)];
      }
      assert ws[..i + 1] == ws[..i] + [w];
      SurvivorsSnoc(ws[..i], w, TcpSteps(world));
    }
    assert ws[..|ws|] == ws;
  }

  /** `_handshake_stage`. */
  method HandshakeStage(world: World, ws: seq<IngestedNode>) returns (kept: seq<IngestedNode>, reports: seq<Report>)
    ensures kept == Survivors(ws, HandshakeSteps(world)) && reports == Reports(ws, HANDSHAKE, HandshakeSteps(world))
  {
    hide HandshakeStep, ReportOf;
    kept, reports := [], [];
    for i := 0 to |ws|
      invariant kept == Survivors(ws[..i], HandshakeSteps(world))
                && reports == Reports(ws[..i], HANDSHAKE, HandshakeSteps(world))
    {
      var w := ws[i];
      var step := HandshakeStep(world, w);
      reports := reports + [ReportOf(w, HANDSHAKE, step)];
      if step.Keep? {
        kept := kept + [w.(node := step.node)];
      }
      assert ws[..i + 1] == ws[..i] + [w];
      SurvivorsSnoc(ws[..i], w, HandshakeSteps(world));
    }
    assert ws[..|ws|] == ws;
  }

  /** `_measure_stage`, attaching through the measurer's guarded updates. */
  method MeasureStage(world: World, ws: seq<IngestedNode>) returns (kept: seq<IngestedNode>, reports: seq<Report>)
    ensures kept == Survivors(ws, MeasureSteps(world)) && reports == Reports(ws, MEASURE, MeasureSteps(world))
  {
    hide ReportOf, MeasureStep;
    kept, reports := [], [];
    for i := 0 to |ws|
      invariant kept == Survivors(ws[..i], MeasureSteps(world))
                && reports == Reports(ws[..i], MEASURE, MeasureSteps(world))
    {
      var w := ws[i];
      var step := MeasureOne(world, w);
      reports := reports + [ReportOf(w, MEASURE, step)];
      if step.Keep? {
        kept := kept + [w.(node := step.node)];
      }
      assert ws[..i + 1] == ws[..i] + [w];
      SurvivorsSnoc(ws[..i], w, MeasureSteps(world));
    }
    assert ws[..|ws|] == ws;
  }

  method MeasureOne(world: World, w: IngestedNode) returns (step: Step)
    ensures step == MeasureStep(world, w)
  {
    hide Measure.Attached;
    if world.measurer.None? {
      return Keep(w.node, "measurer_absent");
    }
    match world.measurer.value(w)
    case ProbeRaised(reason) => return Lose(Trim(reason));
    case Probed(session) =>
      var r := Measure.Attach(world.probes, w.node, world.credentialProbe, session);
      var n := r.value;
      return if n.measuredLatency.None? then Lose("no_measured_sample") else Keep(n, "");
  }

  // ---------------------------------------------------------------------------
  // What no stage changes
  // ---------------------------------------------------------------------------

  /** The raw line, the protocol, the credentials and everything else of a configuration but its endpoint. */
  ghost predicate SameConfig(a: Node, b: Node) {
    && a.rawUrl == b.rawUrl && a.protocol == b.protocol && a.uuid == b.uuid && a.password == b.password
       && a.secret == b.secret
    && a.sni == b.sni && a.hostHeader == b.hostHeader && a.transport == b.transport && a.security == b.security
    && a.path == b.path && a.serviceName == b.serviceName && a.alpn == b.alpn && a.fingerprint == b.fingerprint
    && a.allowInsecure == b.allowInsecure && a.flow == b.flow && a.protocolFields == b.protocolFields
  }

  /** Nothing that identifies a configuration changed, its endpoint included. */
  ghost predicate Untouched(a: Node, b: Node) {
    SameConfig(a, b) && a.endpoint == b.endpoint && KeyOf(a) == KeyOf(b)
  }

  /**
   * What pinning an address does to a configuration: the identity host becomes the pin, the
   * port stays, and the host text is cleaned once more.
   */
  ghost predicate Repinned(lib: NameLib, a: Node, b: Node, ip: string) {
    var pin, host := Strip(ip, lib.space), CleanedHost(lib, a.endpoint.host);
    && SameConfig(a, b) && b.endpoint == Endpoint(host, a.endpoint.port, Some(pin))
    && KeyOf(b) == KeyOf(a).(host := if pin != "" then pin else host)
    && (b.endpoint.host == a.endpoint.host <==> host == a.endpoint.host)
  }

  lemma PinnedExactly(world: World, n: Node, ip: string)
    requires Pinned(world, n, ip).Some?
    ensures Repinned(world.lib, n, Pinned(world, n, ip).value, ip)
  {
    hide CleanedHost;
  }

  /** The address a kept node leaves the DNS stage with. */
  function DnsPin(world: World, w: IngestedNode): string
    requires DnsStep(world, w).Keep?
  {
    var host := w.node.endpoint.host;
    if Strip(host, world.lib.space) != "" && 0 < w.node.endpoint.port < 65536 && world.isLiteral(StripBrackets(host))
    then StripBrackets(host) else world.resolver.value(w).publicIps[0]
  }

  /** DNS changes the endpoint of every node it keeps, and nothing else of its configuration. */
  lemma DnsKeepsConfig(world: World, w: IngestedNode)
    requires DnsStep(world, w).Keep?
    ensures Repinned(world.lib, w.node, DnsStep(world, w).node, DnsPin(world, w))
  {
    var ip := DnsPin(world, w);
    assert Pinned(world, w.node, ip).Some? && DnsStep(world, w).node == Pinned(world, w.node, ip).value;
    PinnedExactly(world, w.node, ip);
  }

  /**
   * A host text that decodes twice becomes another host when it is pinned: `a%2541.x` is
   * read as `a%41.x`, and pinned as `aA.x`.
   */
  lemma HostDecodedAgain(lib: NameLib, port: int, ip: string)
    requires forall h | h in {"a%2541.x", "a%41.x"} :: Strip(h, lib.space) == h && lib.lower(h) == h
    requires lib.unquote("a%2541.x") == "a%41.x" && lib.unquote("a%41.x") == "aA.x" && 0 < port < 65536
    ensures var read := MakeEndpoint(lib, "a%2541.x", port, None);
            && read.Some? && MakeEndpoint(lib, read.value.host, port, Some(ip)).Some?
            && read.value.host == "a%41.x" && MakeEndpoint(lib, read.value.host, port, Some(ip)).value.host == "aA.x"
  {
    assert Free("a%41.x", ':') && Free("aA.x", ':');
  }

  lemma GeoKeepsConfig(world: World, w: IngestedNode)
    ensures GeoStep(world, w).Keep? && Untouched(w.node, GeoStep(world, w).node)
  {
    hide GeoName;
  }

  /** The address the TCP stage pins, if it pins one. */
  function TcpPin(world: World, w: IngestedNode): Option<string> {
    if world.tcp.Some? && world.tcp.value(w).Dialled? then world.tcp.value(w).pin else None
  }

  /** TCP changes the endpoint of a node it keeps exactly when the dial pinned an address. */
  lemma TcpKeepsConfig(world: World, w: IngestedNode)
    requires TcpStep(world, w).Keep?
    ensures var n, pin := TcpStep(world, w).node, TcpPin(world, w);
            if pin.Some? then Repinned(world.lib, w.node, n, pin.value) else Untouched(w.node, n)
  {
    var pin := TcpPin(world, w);
    if pin.Some? {
      var n := w.node.WithTcpConnect(world.tcp.value(w).sample).value;
      PinnedExactly(world, n, pin.value);
      hide CleanedHost;
    }
  }

  lemma HandshakeKeepsConfig(world: World, w: IngestedNode)
    ensures HandshakeStep(world, w).Keep? ==> Untouched(w.node, HandshakeStep(world, w).node)
  {
  }

  lemma MeasureKeepsConfig(world: World, w: IngestedNode)
    ensures MeasureStep(world, w).Keep? ==> Untouched(w.node, MeasureStep(world, w).node)
  {
    hide Measure.Genuine, Measure.Probeable, Measure.SampleOf, Measure.JitterOf;
  }

  // ---------------------------------------------------------------------------
  // What only measurement changes
  // ---------------------------------------------------------------------------

  ghost predicate KeepsUnmeasured(step: IngestedNode -> Step) {
    forall w :: step(w).Keep? && Unmeasured(w.node) ==> Unmeasured(step(w).node)
  }

  lemma EarlyStagesMeasureNothing(world: World)
    ensures KeepsUnmeasured(DnsSteps(world)) && KeepsUnmeasured(GeoSteps(world)) && KeepsUnmeasured(TcpSteps(world))
    ensures KeepsUnmeasured(HandshakeSteps(world))
  {
    hide CleanedHost, GeoName;
  }

  lemma SurvivorsUnmeasured(ws: seq<IngestedNode>, step: IngestedNode -> Step)
    requires KeepsUnmeasured(step) && forall w | w in ws :: Unmeasured(w.node)
    ensures forall v | v in Survivors(ws, step) :: Unmeasured(v.node)
  {
    forall v | v in Survivors(ws, step) ensures Unmeasured(v.node) {
      SurvivorFrom(ws, step, v);
      var w :| w in ws && step(w).Keep? && v == w.(node := step(w).node);
    }
  }
}
