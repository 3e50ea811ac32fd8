/** `_handshake`: the protocol-level probe, whose read loop keeps reading where the measurer's stops. */
module Handshake {
  import opened Common
  import opened Numbers
  import opened Model
  import opened Scoring
  import opened Measure

  datatype HandshakeStatus =
    | HandshakeOk | TlsFailed | ProtocolFailed | OutOfTime | InternalFailed | NoPin | NotSupported

  datatype HandshakeOutcome = HandshakeOutcome(status: HandshakeStatus, reason: string, semantics: string,
                                               latency: Option<LatencySample>)

  lemma FirstReadDecides(n: Node, recv: nat -> Recv)
    ensures Replied(n, recv) <==> recv(0).Chunk? && recv(0).data != [] && ResponseMatches(n, recv(0).data)
  {
  }

  /** The bounded loop that collects everything up to the cap, a failure or the end of the stream. */
  method Collect(recv: nat -> Recv) returns (data: seq<byte>, failure: Option<HandshakeStatus>)
    ensures failure.Some? <==> !recv(0).Chunk?
    ensures failure == Some(OutOfTime) <==> recv(0).RecvTimeout?
    ensures failure.Some? ==> failure.value in {OutOfTime, ProtocolFailed}
    ensures recv(0).Chunk? ==> (data == [] <==> recv(0).data == [])
    ensures data != [] ==> exists k :: 1 <= k <= MAX_READS && data == Received(recv, k)
  {
    data := [];
    var i := 0;
    while i < MAX_READS
      invariant 0 <= i <= MAX_READS && data == Received(recv, i)
      invariant i > 0 ==> recv(0).Chunk? && recv(0).data != [] && data != []
    {
      var answer := recv(i);
      if !answer.Chunk? {
        if data != [] {
          break;
        }
        return data, Some(if answer.RecvTimeout? then OutOfTime else ProtocolFailed);
      }
      if answer.data == [] {
        break;
      }
      data := data + answer.data;
      i := i + 1;
      if |data| >= RECV_CAP {
        break;
      }
    }
    failure := None;
  }

  /** `round((stop - start) * 1000.0, 2)`: rounding leaves an overflow as it is. */
  function RoundedWindow(start: real, stop: real): Float {
    match Elapsed(Fin(start), Fin(stop))
    case Fin(ms) => Fin(Round2(ms))
    case other => other
  }

  /** On a clock that does not run backwards the window is never negative, and finite unless it overflows. */
  lemma WindowMonotone(start: real, stop: real)
    requires start <= stop
    ensures RoundedWindow(start, stop)
            == if stop - start <= FloatMax() && (stop - start) * 1000.0 <= FloatMax()
               then Fin(Round2((stop - start) * 1000.0)) else PosInf
    ensures RoundedWindow(start, stop).Fin? ==> RoundedWindow(start, stop).r >= 0.0
  {
    hide FloatMax, Round2;
    FloatMaxLarge();
    if RoundedWindow(start, stop).Fin? {
      Round2Monotone(0.0, (stop - start) * 1000.0);
      Round2Zero();
    }
  }

  function Failed(status: HandshakeStatus, reason: string): HandshakeOutcome {
    HandshakeOutcome(status, reason, "", None)
  }

  /** Everything the network and the clocks answer to one `_handshake`; `tlsCode` tells why TLS failed. */
  datatype Greeting = Greeting(
    tlsOk: bool, tlsCode: string, sending: Sending, recv: nat -> Recv, start: real, stop: real, now: Float)

  /** TLS up, request sent, and a first read of the protocol's shape. */
  ghost predicate Greets(f: ProbeFacts, n: Node, g: Greeting) {
    g.tlsOk && Askable(f, n) && g.sending.Sent? && Replied(n, g.recv)
  }

  function Semantics(n: Node): string {
    if n.protocol == TROJAN then "relay_verified" else "server_present"
  }

  function GreetingSample(n: Node, g: Greeting): LatencySample {
    LatencySample(Some(RoundedWindow(g.start, g.stop)), PROTOCOL_HANDSHAKE, 1, g.now,
                  "handshake:" + ProtocolLabel(n.protocol) + ":" + Semantics(n))
  }

  /** What the handshake makes of the answers: only the first read decides. */
  function ShakeOf(f: ProbeFacts, n: Node, g: Greeting): HandshakeOutcome {
    if !g.tlsOk then Failed(TlsFailed, g.tlsCode)
    else if ProbeBytes(f, n).None? then Failed(InternalFailed, "probe_build_failed")
    else if g.sending.SendTimeout? then Failed(OutOfTime, "send_timeout")
    else if g.sending.SendError? then Failed(ProtocolFailed, "send_failed")
    else if g.recv(0).RecvTimeout? then Failed(OutOfTime, "recv_timeout")
    else if g.recv(0).RecvError? then Failed(ProtocolFailed, "recv_failed")
    else if g.recv(0).data == [] then Failed(ProtocolFailed, "closed_without_response")
    else if !ResponseMatches(n, g.recv(0).data) then Failed(ProtocolFailed, "unexpected_response")
    else HandshakeOutcome(HandshakeOk, "", Semantics(n), Some(GreetingSample(n, g)))
  }

  /**
   * `_handshake` on a connected socket: TLS, the protocol's request, and its reply, which
   * the loop reads up to the cap.  The monotonic clock is read once before TLS and once
   * after the reply.
   */
  method Shake(f: ProbeFacts, n: Node, g: Greeting) returns (o: HandshakeOutcome)
    requires g.start <= g.stop
    ensures o == ShakeOf(f, n, g)
    ensures o.status == HandshakeOk <==> Greets(f, n, g)
    ensures o.latency.Some? <==> o.status == HandshakeOk
    ensures o.latency.Some? ==>
              && o.latency.value.kind == PROTOCOL_HANDSHAKE && o.latency.value.attempts == 1
              && o.latency.value.valueMs == Some(RoundedWindow(g.start, g.stop))
              && (g.stop - g.start <= FloatMax() && (g.stop - g.start) * 1000.0 <= FloatMax() ==>
                    o.latency.value.valueMs == Some(Fin(Round2((g.stop - g.start) * 1000.0))))
    ensures o.status == OutOfTime <==>
            && g.tlsOk && Askable(f, n)
            && (g.sending.SendTimeout? || (g.sending.Sent? && g.recv(0).RecvTimeout?))
  {
    RequestExists(f, n);
    FirstReadDecides(n, g.recv);
    hide RoundedWindow, FloatMax, Round2, ProbeBytes, Askable, Replied, ResponseMatches, ProtocolLabel;
    if !g.tlsOk {
      return Failed(TlsFailed, g.tlsCode);
    }
    if ProbeBytes(f, n).None? {
      return Failed(InternalFailed, "probe_build_failed");
    }
    if g.sending.SendTimeout? {
      return Failed(OutOfTime, "send_timeout");
    }
    if g.sending.SendError? {
      return Failed(ProtocolFailed, "send_failed");
    }
    var data, failure := Collect(g.recv);
    if failure.Some? {
      return Failed(failure.value, if failure.value == OutOfTime then "recv_timeout" else "recv_failed");
    }
    if data == [] {
      return Failed(ProtocolFailed, "closed_without_response");
    }
    ghost var k :| 1 <= k <= MAX_READS && data == Received(g.recv, k);
    ShapeFixed(n, g.recv, k);
    if !ResponseMatches(n, data) {
      return Failed(ProtocolFailed, "unexpected_response");
    }
    WindowMonotone(g.start, g.stop);
    return HandshakeOutcome(HandshakeOk, "", Semantics(n), Some(GreetingSample(n, g)));
  }

  /** Connecting, and the short code of a failure to. */
  datatype Connecting = Connecting(dial: Dial, code: string)

  /**
   * `validate`: the pinned target, its kind and the protocol gate come first, then the
   * connection, then `_handshake`.
   */
  method Validate(f: ProbeFacts, n: Node, allowCredentialProbe: bool, c: Connecting, g: Greeting)
    returns (o: HandshakeOutcome)
    requires g.start <= g.stop
    ensures o == ValidateOf(f, n, allowCredentialProbe, c, g)
  {
    hide DialTarget, ProbeGate, ShakeOf;
    var target := DialTarget(f, n);
    if target.None? {
      return Failed(NoPin, "no_pinned_ip");
    }
    var kind := f.ipKind(target.value);
    if kind.None? {
      return Failed(NotSupported, "unparseable_ip");
    }
    if kind.value != Public {
      return Failed(NotSupported, "forbidden_target");
    }
    if ProbeGate(n, allowCredentialProbe).Some? {
      return Failed(NotSupported, "unsupported_protocol");
    }
    if !c.dial.Connected? {
      return Failed(if c.dial.DialTimeout? then OutOfTime else ProtocolFailed, c.code);
    }
    o := Shake(f, n, g);
  }

  function ValidateOf(f: ProbeFacts, n: Node, allowCredentialProbe: bool, c: Connecting,
                      g: Greeting): HandshakeOutcome {
    var target := DialTarget(f, n);
    if target.None? then Failed(NoPin, "no_pinned_ip")
    else if f.ipKind(target.value).None? then Failed(NotSupported, "unparseable_ip")
    else if f.ipKind(target.value).value != Public then Failed(NotSupported, "forbidden_target")
    else if ProbeGate(n, allowCredentialProbe).Some? then Failed(NotSupported, "unsupported_protocol")
    else if !c.dial.Connected? then Failed(if c.dial.DialTimeout? then OutOfTime else ProtocolFailed, c.code)
    else ShakeOf(f, n, g)
  }

  /** Validation succeeds exactly on a node that may be probed, connected and greeted. */
  lemma ValidatedExactly(f: ProbeFacts, n: Node, allowCredentialProbe: bool, c: Connecting, g: Greeting)
    ensures var o := ValidateOf(f, n, allowCredentialProbe, c, g);
            && (o.status == HandshakeOk <==>
                Probeable(f, n, allowCredentialProbe) && c.dial.Connected? && Greets(f, n, g))
            && o.latency == if o.status == HandshakeOk then Some(GreetingSample(n, g)) else None
  {
    RequestExists(f, n);
    FirstReadDecides(n, g.recv);
    hide DialTarget, ProbeGate, GreetingSample, ProbeBytes, Askable, Replied, ResponseMatches;
  }

  /**
   * Handshake and measurement accept the same replies, although one loop stops at the
   * first qualifying byte and the other reads on to the cap.
   */
  lemma SameReplies(n: Node, recv: nat -> Recv)
    ensures Qualifies(n, recv) <==> recv(0).Chunk? && recv(0).data != [] && ResponseMatches(n, recv(0).data)
  {
    RepliesExactly(n, recv);
    FirstReadDecides(n, recv);
  }

  /**
   * Every way a handshake ends: the step that failed names itself, a reply of the right
   * first bytes is a latency sample of this protocol's evidence.
   */
  lemma ShakeTable(f: ProbeFacts, n: Node, g: Greeting)
    ensures var o, first := ShakeOf(f, n, g), g.recv(0);
            if !g.tlsOk then o == HandshakeOutcome(TlsFailed, g.tlsCode, "", None)
            else if !Askable(f, n) then o == HandshakeOutcome(InternalFailed, "probe_build_failed", "", None)
            else if g.sending == SendTimeout then o == HandshakeOutcome(OutOfTime, "send_timeout", "", None)
            else if g.sending == SendError then o == HandshakeOutcome(ProtocolFailed, "send_failed", "", None)
            else if first.RecvTimeout? then o == HandshakeOutcome(OutOfTime, "recv_timeout", "", None)
            else if first.RecvError? then o == HandshakeOutcome(ProtocolFailed, "recv_failed", "", None)
            else if first.data == [] then
              o == HandshakeOutcome(ProtocolFailed, "closed_without_response", "", None)
            else if n.protocol == VLESS && first.data[0] != 0 then
              o == HandshakeOutcome(ProtocolFailed, "unexpected_response", "", None)
            else
              && o.status == HandshakeOk && o.reason == "" && o.latency.Some?
              && o.latency.value.valueMs == Some(RoundedWindow(g.start, g.stop))
              && o.latency.value.kind == PROTOCOL_HANDSHAKE && o.latency.value.attempts == 1
              && o.latency.value.measuredAt == g.now
              && (n.protocol == VLESS ==>
                    && o.semantics == "server_present"
                    && o.latency.value.provenance == "handshake:vless:server_present")
              && (n.protocol == TROJAN ==>
                    && o.semantics == "relay_verified"
                    && o.latency.value.provenance == "handshake:trojan:relay_verified")
  {
    RequestExists(f, n);
    FirstReadDecides(n, g.recv);
    ProvenanceTexts();
    hide RoundedWindow, ProbeBytes;
  }

  lemma ProvenanceTexts()
    ensures "handshake:" + ProtocolLabel(VLESS) + ":" + "server_present" == "handshake:vless:server_present"
    ensures "handshake:" + ProtocolLabel(TROJAN) + ":" + "relay_verified" == "handshake:trojan:relay_verified"
  {
  }

  /** What keeps a node from being dialled, before anything is sent. */
  lemma ValidationTable(f: ProbeFacts, n: Node, allowCredentialProbe: bool, c: Connecting, g: Greeting)
    ensures var o, target := ValidateOf(f, n, allowCredentialProbe, c, g), DialTarget(f, n);
            if target.None? then o == HandshakeOutcome(NoPin, "no_pinned_ip", "", None)
            else if f.ipKind(target.value).None? then o == HandshakeOutcome(NotSupported, "unparseable_ip", "", None)
            else if f.ipKind(target.value) != Some(Public) then
              o == HandshakeOutcome(NotSupported, "forbidden_target", "", None)
            else if !Probeable(f, n, allowCredentialProbe) then
              o == HandshakeOutcome(NotSupported, "unsupported_protocol", "", None)
            else if c.dial == DialTimeout then o == HandshakeOutcome(OutOfTime, c.code, "", None)
            else if c.dial == DialError then o == HandshakeOutcome(ProtocolFailed, c.code, "", None)
            else o == ShakeOf(f, n, g)
  {
    hide ShakeOf, ProbeGate, DialTarget;
  }
}
