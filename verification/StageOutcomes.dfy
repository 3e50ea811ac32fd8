/**
 * What each live stage does to one line, case by case: who passes, with which node, and who
 * is lost for which reason.
 */
module StageOutcomes {
  import opened Common
  import opened Numbers
  import opened Model
  import opened Text
  import opened Ingest
  import opened Stages
  import Measure

  /** The start of a reason: all of it, or its first 120 characters. */
  ghost predicate Abridged(reason: string, why: string) {
    (|why| <= 120 && reason == why) || (|why| > 120 && reason == why[..120])
  }

  /** The node with its address pinned; the host is read once more. */
  ghost predicate PinnedTo(lib: NameLib, n: Node, m: Node, ip: string) {
    && m == n.(endpoint := m.endpoint) && m.endpoint.port == n.endpoint.port
    && m.endpoint.host == CleanedHost(lib, n.endpoint.host) && m.endpoint.resolvedIp == Some(Strip(ip, lib.space))
  }

  /** An endpoint whose host is not blank and whose port is in range. */
  ghost predicate Sane(lib: NameLib, n: Node) {
    Strip(n.endpoint.host, lib.space) != "" && 1 <= n.endpoint.port <= 65535
  }

  lemma PinsExactly(world: World, n: Node, ip: string)
    ensures Pinned(world, n, ip).Some? <==> Sane(world.lib, n)
    ensures Pinned(world, n, ip).Some? ==> PinnedTo(world.lib, n, Pinned(world, n, ip).value, ip)
  {
    hide CleanedHost, Strip;
  }

  function Bare(s: string): string {
    Strip(s, c => c == '[' || c == ']')
  }

  /**
   * DNS: an address literal is pinned to itself and nobody is asked; any other name needs
   * a resolver, an answer in order, and a public address, the first of which is pinned.
   */
  lemma DnsOutcome(world: World, w: IngestedNode)
    ensures var n, step := w.node, DnsStep(world, w);
            if Sane(world.lib, n) && world.isLiteral(Bare(n.endpoint.host)) then
              step.Keep? && step.note == "" && PinnedTo(world.lib, n, step.node, Bare(n.endpoint.host))
            else if world.resolver.None? then step == Lose("dns_no_resolver")
            else
              var answer := world.resolver.value(w);
              if answer == LookupRaised then step == Lose("resolver_error")
              else if !answer.ok || answer.publicIps == [] then step.Lose? && Abridged(step.reason, answer.why)
              else if !Sane(world.lib, n) then step == Lose("empty_host")
              else step.Keep? && step.note == "" && PinnedTo(world.lib, n, step.node, answer.publicIps[0])
  {
    var host := w.node.endpoint.host;
    PinsExactly(world, w.node, StripBrackets(host));
    if world.resolver.Some? && world.resolver.value(w).Looked? && world.resolver.value(w).publicIps != [] {
      PinsExactly(world, w.node, world.resolver.value(w).publicIps[0]);
    }
    assert Bare(host) == StripBrackets(host);
    hide Pinned, Strip, PinnedTo, Bare, StripBrackets;
  }

  /** Geography never loses a line: it names the node by flag, country and city, before the name it had. */
  lemma GeoOutcome(world: World, w: IngestedNode)
    ensures var step := GeoStep(world, w);
            if world.geo.None? then step == Keep(w.node, "geo_provider_absent")
            else
              var g, was := world.geo.value(w), w.node.outputName;
              var text := g.flag + g.country + "\U{B7}" + g.city + (if was == "" then "" else "|" + was);
              && step.Keep? && step.note == ""
              && step.node == w.node.(geo := Some(g), outputName := step.node.outputName)
              && step.node.outputName == (if |text| <= 256 then text else text[..256])
  {
    if world.geo.Some? {
      var g, was := world.geo.value(w), w.node.outputName;
      var prefix := g.flag + g.country + "\U{B7}" + g.city;
      assert prefix + "" == prefix && prefix + "|" + was == prefix + ("|" + was);
    }
  }

  /** TCP: the dial must succeed with a sample of its own kind; an address it names is pinned. */
  lemma TcpOutcome(world: World, w: IngestedNode)
    ensures var n, step := w.node, TcpStep(world, w);
            if world.tcp.None? then step == Keep(n, "tcp_validator_absent")
            else
              var answer := world.tcp.value(w);
              if answer.DialRaised? then step.Lose? && Abridged(step.reason, answer.reason)
              else if answer.DialRefused? then
                step.Lose? && Abridged(step.reason, if answer.reason == "" then "tcp_failed" else answer.reason)
              else if answer.sample.kind != TCP_CONNECT then step == Lose("ValueError")
              else if answer.pin.None? then step == Keep(n.(tcpConnect := Some(answer.sample)), "")
              else if !Sane(world.lib, n) then step == Lose("ValueError")
              else
                && step.Keep? && step.note == ""
                && PinnedTo(world.lib, n.(tcpConnect := Some(answer.sample)), step.node, answer.pin.value)
  {
    if world.tcp.Some? && world.tcp.value(w).Dialled? && world.tcp.value(w).pin.Some? {
      PinsExactly(world, w.node.(tcpConnect := Some(world.tcp.value(w).sample)), world.tcp.value(w).pin.value);
    }
    hide Pinned, PinnedTo, Strip;
  }

  /** Handshake: success passes the node with the sample it brings, if it brings one of its kind. */
  lemma HandshakeOutcome(world: World, w: IngestedNode)
    ensures var n, step := w.node, HandshakeStep(world, w);
            if world.handshake.None? then step == Keep(n, "handshake_validator_absent")
            else
              var answer := world.handshake.value(w);
              if answer.ShakeRaised? || answer.ShakeRefused? then step.Lose? && Abridged(step.reason, answer.reason)
              else if answer.sample.None? then step == Keep(n, "")
              else if answer.sample.value.kind != PROTOCOL_HANDSHAKE then step == Lose("ValueError")
              else step == Keep(n.(protocolHandshake := Some(answer.sample.value)), "")
  {
  }

  /** Measurement: a node without a measured sample afterwards is lost. */
  lemma MeasureOutcome(world: World, w: IngestedNode)
    ensures var step := MeasureStep(world, w);
            if world.measurer.None? then step == Keep(w.node, "measurer_absent")
            else
              var answer := world.measurer.value(w);
              if answer.ProbeRaised? then step.Lose? && Abridged(step.reason, answer.reason)
              else
                var n := Measure.Attached(world.probes, w.node, world.credentialProbe, answer.session);
                if n.measuredLatency.None? then step == Lose("no_measured_sample") else step == Keep(n, "")
  {
    hide Measure.Attached;
  }

  /** A report names its line, what it was before the stage, and why it was lost if it was. */
  lemma ReportsSpelled(ws: seq<IngestedNode>, stage: Stage, step: IngestedNode -> Step, i: nat)
    requires i < |ws|
    ensures |Reports(ws, stage, step)| == |ws|
    ensures var r, w, s := Reports(ws, stage, step)[i], ws[i], step(ws[i]);
            && r.origin == w.origin.name && r.lineNo == w.lineNo && r.lineHash == w.lineHash
            && r.protocol == w.node.protocol && r.endpoint == EndpointText(w.node) && r.stage == stage
            && (r.failed <==> s.Lose?) && (s.Lose? ==> r.reason == s.reason) && (s.Keep? ==> r.reason == s.note)
  {
    hide EndpointText;
  }
}
