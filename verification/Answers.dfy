/** What the live stages make of the answers that the resolver and the handshake validator really give. */
module Answers {
  import opened Common
  import opened Numbers
  import opened Model
  import opened Text
  import opened Ingest
  import opened Stages
  import Measure
  import Handshake
  import NameResolution

  // ---------------------------------------------------------------------------
  // The handshake stage
  // ---------------------------------------------------------------------------

  /** An outcome as the stage sees it; a failure says why, or at least that it failed. */
  function ShakeAnswer(o: Handshake.HandshakeOutcome, status: string): Shake {
    if o.status == Handshake.HandshakeOk then Shaken(o.latency)
    else ShakeRefused(if o.reason != "" then o.reason else status)
  }

  /**
   * With the validator's own answer a node passes the handshake stage exactly when it may be
   * probed, connects, and is greeted properly; it then carries that handshake's sample, and
   * nothing else of it changed.
   */
  lemma HandshakeJoined(world: World, w: IngestedNode, f: Measure.ProbeFacts, allowCredentialProbe: bool,
                        c: Handshake.Connecting, g: Handshake.Greeting, status: string)
    requires world.handshake.Some?
    requires world.handshake.value(w)
             == ShakeAnswer(Handshake.ValidateOf(f, w.node, allowCredentialProbe, c, g), status)
    ensures HandshakeStep(world, w).Keep? <==>
            && Measure.Probeable(f, w.node, allowCredentialProbe) && c.dial.Connected?
            && Handshake.Greets(f, w.node, g)
    ensures HandshakeStep(world, w).Keep? ==>
              HandshakeStep(world, w).node == w.node.(protocolHandshake := Some(Handshake.GreetingSample(w.node, g)))
    ensures HandshakeStep(world, w).Lose? ==>
              var why := Handshake.ValidateOf(f, w.node, allowCredentialProbe, c, g).reason;
              HandshakeStep(world, w).reason == Trim(if why == "" then status else why)
  {
    Handshake.ValidatedExactly(f, w.node, allowCredentialProbe, c, g);
    hide Handshake.ValidateOf, Handshake.Greets, Measure.Probeable;
  }

  // ---------------------------------------------------------------------------
  // The DNS stage
  // ---------------------------------------------------------------------------

  /** `public_ips`: the canonical texts of the addresses that are public. */
  function PublicIps(f: NameResolution.NameFacts, kind: string -> Option<Measure.IpKind>,
                     ips: seq<string>): seq<string> {
    if ips == [] then []
    else
      (if f.classify(ips[0]).Some? && kind(ips[0]) == Some(Measure.Public) then [f.classify(ips[0]).value.value]
       else [])
      + PublicIps(f, kind, ips[1..])
  }

  function StatusText(s: NameResolution.Status): string {
    match s
    case OK => "ok" case NXDOMAIN => "nxdomain" case TIMEOUT => "timeout" case TEMP_FAIL => "temp_fail"
    case INVALID => "invalid"
  }

  /** A record as the stage sees it. */
  function LookupAnswer(f: NameResolution.NameFacts, kind: string -> Option<Measure.IpKind>,
                        r: NameResolution.Resolved): Lookup {
    Looked(r.status == NameResolution.OK, PublicIps(f, kind, r.ipv4 + r.ipv6),
           if r.error != "" then r.error else StatusText(r.status))
  }

  /** The public addresses are the canonical texts of addresses of the record. */
  lemma {:induction false} PublicIpsExactly(f: NameResolution.NameFacts, kind: string -> Option<Measure.IpKind>,
                                            ips: seq<string>, ip: string)
    ensures ip in PublicIps(f, kind, ips) <==>
            exists a :: a in ips && f.classify(a).Some? && kind(a) == Some(Measure.Public)
                && f.classify(a).value.value == ip
  {
    if ips != [] {
      PublicIpsExactly(f, kind, ips[1..], ip);
      assert forall a :: a in ips <==> a == ips[0] || a in ips[1..];
    }
  }

  /** `a` is an address the transport said, and it is public. */
  ghost predicate PublicAnswer(f: NameResolution.NameFacts, kind: string -> Option<Measure.IpKind>,
                               answer: NameResolution.Answer, a: string) {
    && (NameResolution.Said(f, answer, a, true) || NameResolution.Said(f, answer, a, false))
    && f.classify(a).Some? && kind(a) == Some(Measure.Public)
  }

  /** The resolver has to be asked about this node. */
  predicate Asks(world: World, w: IngestedNode) {
    var host := w.node.endpoint.host;
    world.resolver.Some?
    && !(Strip(host, world.lib.space) != "" && 0 < w.node.endpoint.port < 65536 && world.isLiteral(StripBrackets(host)))
  }

  /**
   * With the resolver's own record a node that is not a literal passes the DNS stage exactly
   * when the record holds a public address (and the endpoint can be built); it is pinned to
   * the text of a public address that the transport said.
   */
  lemma DnsJoined(world: World, w: IngestedNode, f: NameResolution.NameFacts, kind: string -> Option<Measure.IpKind>,
                  name: string, answer: NameResolution.Answer)
    requires Asks(world, w)
    requires world.resolver.value(w) == LookupAnswer(f, kind, NameResolution.Interpret(f, name, answer))
    ensures var r := NameResolution.Interpret(f, name, answer);
            DnsStep(world, w).Keep? <==>
            && PublicIps(f, kind, r.ipv4 + r.ipv6) != []
            && Strip(w.node.endpoint.host, world.lib.space) != "" && 0 < w.node.endpoint.port < 65536
    ensures DnsStep(world, w).Keep? ==>
              exists a :: PublicAnswer(f, kind, answer, a)
                          && DnsStep(world, w).node.endpoint.resolvedIp
                             == Some(Strip(f.classify(a).value.value, world.lib.space))
    ensures var r, step := NameResolution.Interpret(f, name, answer), DnsStep(world, w);
            step.Lose? && PublicIps(f, kind, r.ipv4 + r.ipv6) == [] ==>
                step.reason == Trim(if r.status == NameResolution.OK then "ok" else r.error)
  {
    var r := NameResolution.Interpret(f, name, answer);
    var ips := PublicIps(f, kind, r.ipv4 + r.ipv6);
    NameResolution.AnswerMeans(f, name, answer);
    hide NameResolution.Interpret, NameResolution.Said, CleanedHost;
    if ips != [] {
      PublicIpsExactly(f, kind, r.ipv4 + r.ipv6, ips[0]);
      var a :| a in r.ipv4 + r.ipv6 && f.classify(a).Some? && kind(a) == Some(Measure.Public)
          && f.classify(a).value.value == ips[0];
      assert PublicAnswer(f, kind, answer, a);
    } else {
      NothingPublic(f, kind, name, answer);
    }
  }

  lemma NothingPublic(f: NameResolution.NameFacts, kind: string -> Option<Measure.IpKind>, name: string,
                      answer: NameResolution.Answer)
    ensures NameResolution.Interpret(f, name, answer).status != NameResolution.OK ==>
              PublicIps(f, kind, NameResolution.Interpret(f, name, answer).ipv4
                        + NameResolution.Interpret(f, name, answer).ipv6) == []
  {
    NameResolution.AnswerMeans(f, name, answer);
  }
}
