/**
 * Two-probe measurement: the probe cycle with its bounded read loop, the measurer
 * that fills an outcome step by step, and the samples it attaches to a node.
 */
module Measure {
  import opened Common
  import opened Numbers
  import opened Model
  import opened Scoring
  import opened Text
  import Encoding

  /** Library facts: UUID parsing, SHA-224 in hexadecimal, and IP classification. */
  datatype ProbeFacts = ProbeFacts(
    uuidBytes: string -> Option<seq<byte>>,
    sha224Hex: string -> seq<byte>,
    isLiteral: string -> bool,
    ipKind: string -> Option<IpKind>)

  datatype IpKind = Public | Loopback | Private | LinkLocal | ReservedRange | Multicast | Unspecified

  datatype Dial = Connected | DialTimeout | DialError
  datatype Sending = Sent | SendTimeout | SendError
  datatype Recv = Chunk(data: seq<byte>) | RecvTimeout | RecvError

  /** Everything the network and the clock answer during one probe cycle. */
  datatype Cycle = Cycle(dial: Dial, tlsOk: bool, sending: Sending, recv: nat -> Recv, start: Float, stop: Float)

  datatype MeasureStatus =
    | Success | PartialSuccess | UnsupportedTarget | Timeout | TlsError | ProtocolError | NoPinnedIp | InternalError

  datatype ProbeReport = ProbeReport(ok: bool, status: MeasureStatus, reason: string, ms: Option<Float>)

  const MAX_READS := 4
  const RECV_CAP := 4096
  const CRLF: seq<byte> := [13, 10]

  function Zeros(n: nat): seq<byte> {
    seq(n, _ => 0)
  }

  function ProbeBytes(f: ProbeFacts, n: Node): Option<seq<byte>> {
    match n.protocol
    case VLESS =>
      (match f.uuidBytes(n.uuid)
       case None => None
       case Some(uid) => Some([0] + uid + Zeros(39)))
    case TROJAN =>
      Some(CRLF + f.sha224Hex(n.password) + CRLF + [3, 11] + Encoding.Utf8("example.com") + [0, 80] + CRLF
           + Encoding.Utf8("GET / HTTP/1.1\r\nHost: example.com\r\nConnection: close\r\n\r\n"))
    case _ => None
  }

  predicate ResponseMatches(n: Node, data: seq<byte>) {
    match n.protocol
    case VLESS => data != [] && data[0] == 0
    case TROJAN => true
    case _ => false
  }

  function Failure(status: MeasureStatus, reason: string): ProbeReport {
    ProbeReport(false, status, reason, None)
  }

  // ---------------------------------------------------------------------------
  // The read loop
  // ---------------------------------------------------------------------------

  /** The bytes received by the first `k` reads, when all of them delivered something. */
  ghost function Received(recv: nat -> Recv, k: nat): seq<byte> {
    if k == 0 then [] else Received(recv, k - 1) + (if recv(k - 1).Chunk? then recv(k - 1).data else [])
  }

  ghost predicate Delivers(recv: nat -> Recv, k: nat) {
    forall i: nat | i < k :: recv(i).Chunk? && recv(i).data != []
  }

  /** The `k`-th read is the first after which the bytes have the protocol's shape, within the cap. */
  ghost predicate QualifiesAt(n: Node, recv: nat -> Recv, k: nat) {
    && 1 <= k <= MAX_READS
    && Delivers(recv, k)
    && ResponseMatches(n, Received(recv, k))
    && forall j: nat | 1 <= j < k :: !ResponseMatches(n, Received(recv, j)) && |Received(recv, j)| < RECV_CAP
  }

  ghost predicate Qualifies(n: Node, recv: nat -> Recv) {
    exists k :: QualifiesAt(n, recv, k)
  }

  /**
   * The first bytes that arrive are the reply the protocol asks for: from VLESS a first
   * byte 0, from Trojan anything at all; nothing counts as a reply of another protocol.
   */
  ghost predicate Replied(n: Node, recv: nat -> Recv) {
    && recv(0).Chunk? && recv(0).data != []
    && ((n.protocol == VLESS && recv(0).data[0] == 0) || n.protocol == TROJAN)
  }

  lemma ReceivedStart(recv: nat -> Recv, k: nat)
    requires k >= 1 && recv(0).Chunk? && recv(0).data != []
    ensures Received(recv, k) != [] && Received(recv, k)[0] == recv(0).data[0]
  {
    if k == 1 {
      assert Received(recv, 0) == [];
    } else {
      ReceivedStart(recv, k - 1);
    }
  }

  /** The shape is decided by the first byte, so later reads never change it. */
  lemma ShapeFixed(n: Node, recv: nat -> Recv, k: nat)
    requires k >= 1 && recv(0).Chunk? && recv(0).data != []
    ensures ResponseMatches(n, Received(recv, k)) <==> Replied(n, recv)
  {
    ReceivedStart(recv, k);
  }

  /** One read decides whether any number of them qualifies. */
  lemma RepliesExactly(n: Node, recv: nat -> Recv)
    ensures Qualifies(n, recv) <==> Replied(n, recv)
  {
    assert Received(recv, 0) == [];
    if Replied(n, recv) {
      ShapeFixed(n, recv, 1);
      assert QualifiesAt(n, recv, 1);
    } else if Qualifies(n, recv) {
      var k :| QualifiesAt(n, recv, k);
      assert recv(0).Chunk? && recv(0).data != [];
      ShapeFixed(n, recv, k);
    }
  }

  /** Read `i` takes place: at most four, all before it delivered something, below 4096 bytes and no reply yet. */
  ghost predicate Reaches(n: Node, recv: nat -> Recv, i: nat) {
    i < 4 && Delivers(recv, i) && !Replied(n, recv) && forall j: nat | 1 <= j <= i :: |Received(recv, j)| < 4096
  }

  /** How the bounded read ends. */
  datatype ReadEnd = Got | TimedOut | Broken | Closed | Shapeless

  function ReadFailure(end: ReadEnd): ProbeReport
    requires end != Got
  {
    match end
    case TimedOut => Failure(Timeout, "recv_timeout")
    case Broken => Failure(ProtocolError, "recv_failed")
    case Closed => Failure(ProtocolError, "closed_without_response")
    case Shapeless => Failure(ProtocolError, "unexpected_response")
  }

  /**
   * The read loop stops at the first qualifying byte, and only a qualifying reply counts;
   * without one it ends with the first read that fails, or short of shape.
   */
  method ReadReply(n: Node, recv: nat -> Recv) returns (end: ReadEnd)
    ensures end == Got <==> Replied(n, recv)
    ensures end == TimedOut <==> exists i: nat :: Reaches(n, recv, i) && recv(i).RecvTimeout?
    ensures end == Broken <==> exists i: nat :: Reaches(n, recv, i) && recv(i).RecvError?
    ensures end == Closed <==> recv(0).Chunk? && recv(0).data == []
  {
    var data: seq<byte> := [];
    var i := 0;
    while i < MAX_READS
      invariant i <= MAX_READS && Delivers(recv, i) && data == Received(recv, i) && (i > 0 <==> data != [])
      invariant i > 0 ==> !Replied(n, recv)
      invariant forall j: nat | 1 <= j <= i :: |Received(recv, j)| < RECV_CAP
    {
      var answer := recv(i);
      if answer.RecvTimeout? {
        EndsHere(n, recv, i);
        return TimedOut;
      }
      if answer.RecvError? {
        EndsHere(n, recv, i);
        return Broken;
      }
      if answer.data == [] {
        EndsHere(n, recv, i);
        break;
      }
      data := data + answer.data;
      ShapeFixed(n, recv, i + 1);
      if ResponseMatches(n, data) {
        return Got;
      }
      i := i + 1;
      if |data| >= RECV_CAP {
        break;
      }
    }
    return if data == [] then Closed else Shapeless;
  }

  /** After a read that delivers nothing there is no further one. */
  lemma EndsHere(n: Node, recv: nat -> Recv, i: nat)
    requires i < MAX_READS && Delivers(recv, i) && (!recv(i).Chunk? || recv(i).data == [])
    requires i > 0 ==> !Replied(n, recv)
    requires forall j: nat | 1 <= j <= i :: |Received(recv, j)| < RECV_CAP
    ensures Replied(n, recv) || Reaches(n, recv, i)
    ensures forall k: nat | Reaches(n, recv, k) :: k <= i
  {
    assert forall k: nat | Delivers(recv, k) :: k <= i;
  }

  /** The duration of the measured window, in milliseconds. */
  function WindowMs(c: Cycle): Float {
    Elapsed(c.start, c.stop)
  }

  /** `(stop - start) * 1000.0`. */
  function Elapsed(start: Float, stop: Float): Float {
    var d := Sub(stop, start);
    if d.Fin? then Clip(d.r * 1000.0) else d
  }

  /** The window is a number exactly when both readings are and nothing overflows: their difference in milliseconds. */
  lemma WindowSpelled(c: Cycle)
    ensures WindowMs(c).Fin? <==>
            c.start.Fin? && c.stop.Fin? && -FloatMax() <= (c.stop.r - c.start.r) * 1000.0 <= FloatMax()
    ensures WindowMs(c).Fin? ==> WindowMs(c).r == (c.stop.r - c.start.r) * 1000.0
  {
    FloatMaxLarge();
    hide FloatMax;
  }

  /** There is a request to send: a Trojan one always, a VLESS one when its user is a UUID, no other. */
  ghost predicate Askable(f: ProbeFacts, n: Node) {
    n.protocol == TROJAN || (n.protocol == VLESS && f.uuidBytes(n.uuid).Some?)
  }

  lemma RequestExists(f: ProbeFacts, n: Node)
    ensures ProbeBytes(f, n).Some? <==> Askable(f, n)
  {
  }

  lemma Glued(hex: seq<byte>, name: seq<byte>, request: seq<byte>)
    ensures CRLF + hex + CRLF + [3, 11] + name + [0, 80] + CRLF + request
            == [13, 10] + hex + [13, 10, 3, 11] + name + [0, 80, 13, 10] + request
  {
    assert CRLF + [3, 11] == [13, 10, 3, 11] && [0, 80] + CRLF == [0, 80, 13, 10];
    assert CRLF + hex + CRLF + [3, 11] + name + [0, 80] + CRLF + request
           == CRLF + hex + (CRLF + [3, 11]) + name + ([0, 80] + CRLF) + request;
  }

  /** The VLESS request: version 0, the UUID, and 39 zeros. */
  lemma VlessRequestSpelled(f: ProbeFacts, n: Node)
    requires n.protocol == VLESS && f.uuidBytes(n.uuid).Some?
    ensures var b, uid := ProbeBytes(f, n), f.uuidBytes(n.uuid).value;
            && b.Some? && |b.value| == 40 + |uid| && b.value[0] == 0 && b.value[1..1 + |uid|] == uid
            && forall k | 1 + |uid| <= k < 40 + |uid| :: b.value[k] == 0
  {
  }

  /** The Trojan request: the hexadecimal digest of the password, and HTTP to relay to port 80 of a name. */
  lemma TrojanRequestSpelled(f: ProbeFacts, n: Node)
    requires n.protocol == TROJAN
    ensures ProbeBytes(f, n)
            == Some([13, 10] + f.sha224Hex(n.password) + [13, 10, 3, 11] + Encoding.Utf8("example.com")
                    + [0, 80, 13, 10]
                    + Encoding.Utf8("GET / HTTP/1.1\r\nHost: example.com\r\nConnection: close\r\n\r\n"))
  {
    hide Encoding.Utf8;
    Glued(f.sha224Hex(n.password), Encoding.Utf8("example.com"),
          Encoding.Utf8("GET / HTTP/1.1\r\nHost: example.com\r\nConnection: close\r\n\r\n"));
  }

  /** The request gets as far as being sent. */
  ghost predicate Asked(f: ProbeFacts, n: Node, c: Cycle) {
    c.dial.Connected? && c.tlsOk && Askable(f, n)
  }

  /** A complete, honest round trip: connected, TLS up, request sent, a qualifying reply, a sane clock. */
  ghost predicate Genuine(f: ProbeFacts, n: Node, c: Cycle) {
    && c.dial.Connected? && c.tlsOk && Askable(f, n) && c.sending.Sent? && Replied(n, c.recv)
    && WindowMs(c).Fin? && WindowMs(c).r >= 0.0
  }

  /** Which step of a cycle failed, by status and reason. */
  ghost predicate Explained(f: ProbeFacts, n: Node, c: Cycle, r: ProbeReport) {
    && (c.dial.DialTimeout? ==> r == Failure(Timeout, "tcp_timeout"))
    && (c.dial.DialError? ==> r == Failure(ProtocolError, "tcp_failed"))
    && (r.status == TlsError <==> c.dial.Connected? && !c.tlsOk)
    && (c.dial.Connected? && c.tlsOk && !Askable(f, n) ==> r == Failure(InternalError, "probe_build_failed"))
    && (Asked(f, n, c) ==>
                  && (c.sending.SendTimeout? ==> r == Failure(Timeout, "send_timeout"))
                  && (c.sending.SendError? ==> r == Failure(ProtocolError, "send_failed")))
    && (Asked(f, n, c) && c.sending.Sent? ==>
                  && (r == Failure(Timeout, "recv_timeout") <==>
                        exists i: nat :: Reaches(n, c.recv, i) && c.recv(i).RecvTimeout?)
                  && (r == Failure(ProtocolError, "recv_failed") <==>
                        exists i: nat :: Reaches(n, c.recv, i) && c.recv(i).RecvError?)
                  && (r == Failure(ProtocolError, "closed_without_response") <==>
                        c.recv(0).Chunk? && c.recv(0).data == [])
                  && (r.status == InternalError <==> Replied(n, c.recv) && !r.ok)
                  && (r.status == InternalError ==> r.reason == "nonfinite_latency")
                  && (r.reason in {"", "recv_timeout", "recv_failed", "closed_without_response", "nonfinite_latency",
                                   "unexpected_response"}))
  }

  /**
   * `_probe_cycle`: succeeds exactly on a genuine round trip, and then reports the
   * window rounded to two decimals; it never reports a number otherwise.
   */
  method ProbeCycle(f: ProbeFacts, n: Node, c: Cycle) returns (r: ProbeReport)
    ensures r.ok <==> Genuine(f, n, c)
    ensures r.ok ==> r.status == Success && r.ms == Some(Fin(Round2(WindowMs(c).r))) && Round2(WindowMs(c).r) >= 0.0
    ensures !r.ok ==> r.ms == None && r.status in {Timeout, TlsError, ProtocolError, InternalError} && r.reason != ""
    ensures r.reason != "unsupported_protocol"
    ensures Explained(f, n, c, r)
  {
    RequestExists(f, n);
    hide WindowMs, Round2, ProbeBytes, Askable, Replied, Reaches;
    if c.dial.DialTimeout? {
      return Failure(Timeout, "tcp_timeout");
    }
    if c.dial.DialError? {
      return Failure(ProtocolError, "tcp_failed");
    }
    if !c.tlsOk {
      return Failure(TlsError, "tls_handshake_failed");
    }
    if ProbeBytes(f, n).None? {
      return Failure(InternalError, "probe_build_failed");
    }
    if c.sending.SendTimeout? {
      return Failure(Timeout, "send_timeout");
    }
    if c.sending.SendError? {
      return Failure(ProtocolError, "send_failed");
    }
    var end := ReadReply(n, c.recv);
    if end != Got {
      return ReadFailure(end);
    }
    var ms := WindowMs(c);
    if !ms.Finite() || ms.r < 0.0 {
      return Failure(InternalError, "nonfinite_latency");
    }
    Round2Monotone(0.0, ms.r);
    Round2Zero();
    return ProbeReport(true, Success, "", Some(Fin(Round2(ms.r))));
  }

  // ---------------------------------------------------------------------------
  // The measurer
  // ---------------------------------------------------------------------------

  const LATENCY_THRESHOLD_MS := 500.0
  const JITTER_THRESHOLD_MS := 75.0

  /** The two independent cycles, what the wall clock said after each, and whether the pause was undisturbed. */
  datatype Session = Session(first: Cycle, second: Cycle, now1: Float, now2: Float, slept: bool)

  function StripBrackets(s: string): string {
    Strip(s, c => c == '[' || c == ']')
  }

  /** The pinned address the probes dial; never a name to resolve again. */
  function DialTarget(f: ProbeFacts, n: Node): Option<string> {
    var ep := n.endpoint;
    if ep.resolvedIp.Some? && ep.resolvedIp.value != "" then Some(StripBrackets(ep.resolvedIp.value))
    else if ep.host != "" && f.isLiteral(ep.host) then Some(StripBrackets(ep.host))
    else None
  }

  /** The pinned address wins over a literal host; either loses its brackets. */
  lemma DialSpelled(f: ProbeFacts, n: Node)
    ensures var t, ip, host := DialTarget(f, n), n.endpoint.resolvedIp, n.endpoint.host;
            var pinned := ip.Some? && ip.value != "";
            && (t.Some? <==> pinned || (host != "" && f.isLiteral(host)))
            && (t.Some? ==> t.value == Strip(if pinned then ip.value else host, c => c == '[' || c == ']'))
  {
    hide Strip;
  }

  /** Pinned to a public address and let through by the protocol gate. */
  predicate Probeable(f: ProbeFacts, n: Node, allowCredentialProbe: bool) {
    && DialTarget(f, n).Some?
    && f.ipKind(DialTarget(f, n).value) == Some(Public)
    && ProbeGate(n, allowCredentialProbe).None?
  }

  /** The MEASURED sample of a successful cycle. */
  function SampleOf(c: Cycle, now: Float, provenance: string): LatencySample
    requires WindowMs(c).Fin?
  {
    LatencySample(Some(Fin(Round2(WindowMs(c).r))), MEASURED, 1, now, provenance)
  }

  function JitterOf(c1: Cycle, c2: Cycle): Float
    requires WindowMs(c1).Fin? && WindowMs(c2).Fin?
  {
    Fin(Round2(Abs(Round2(WindowMs(c2).r) - Round2(WindowMs(c1).r))))
  }

  lemma SampleIs(c: Cycle, now: Float, provenance: string)
    requires WindowMs(c).Fin?
    ensures SampleOf(c, now, provenance)
            == LatencySample(Some(Fin(Round2(WindowMs(c).r))), MEASURED, 1, now, provenance)
  {
  }

  lemma JitterIs(c1: Cycle, c2: Cycle)
    requires WindowMs(c1).Fin? && WindowMs(c2).Fin?
    ensures JitterOf(c1, c2) == Fin(Round2(Abs(Round2(WindowMs(c2).r) - Round2(WindowMs(c1).r))))
  {
  }

  class MeasureOutcome {
    var ok: bool
    var status: MeasureStatus
    var reason: string
    var dialTarget: string
    var probes: seq<ProbeReport>
    var latency: Option<LatencySample>
    var latency2: Option<LatencySample>
    var jitterMs: Option<Float>
    var withinThreshold: bool
    var jitterWithinThreshold: bool
    var interrupted: bool

    constructor ()
      ensures !ok && status == UnsupportedTarget && latency == None && latency2 == None && jitterMs == None
      ensures probes == [] && !withinThreshold && !jitterWithinThreshold && dialTarget == "" && reason == ""
      ensures !interrupted
    {
      ok, status, reason, dialTarget := false, UnsupportedTarget, "", "";
      probes, latency, latency2, jitterMs := [], None, None, None;
      withinThreshold, jitterWithinThreshold, interrupted := false, false, false;
    }
  }

  /** The two independent full cycles; a failed second one keeps the first sample and invents nothing. */
  method TwoProbes(f: ProbeFacts, n: Node, env: Session, o: MeasureOutcome)
    requires !o.ok && o.status == UnsupportedTarget && o.latency == None && o.latency2 == None && o.jitterMs == None
    requires o.probes == [] && !o.withinThreshold && !o.jitterWithinThreshold && o.reason != "unsupported_protocol"
    requires !o.interrupted
    modifies o
    ensures o.ok <==> Genuine(f, n, env.first)
    ensures o.latency == if o.ok then Some(SampleOf(env.first, env.now1, "measured:probe1:success")) else None
    ensures o.latency2 == if o.ok && Genuine(f, n, env.second)
                          then Some(SampleOf(env.second, env.now2, "measured:probe2:success")) else None
    ensures o.jitterMs == if o.ok && Genuine(f, n, env.second) then Some(JitterOf(env.first, env.second)) else None
    ensures o.status == Success <==> o.ok && Genuine(f, n, env.second)
    ensures o.status == PartialSuccess <==> o.ok && !Genuine(f, n, env.second)
    ensures o.withinThreshold <==> o.ok && Round2(WindowMs(env.first).r) < 500.0
    ensures o.jitterWithinThreshold <==> o.jitterMs.Some? && o.jitterMs.value.r < 75.0
    ensures o.dialTarget == old(o.dialTarget) && o.reason != "unsupported_protocol"
    ensures o.interrupted <==> o.ok && !env.slept
  {
    hide Genuine, WindowMs, Round2, Abs, Asked, Askable, Replied, Reaches, Explained, SampleOf, JitterOf;
    var r1 := ProbeCycle(f, n, env.first);
    o.probes := [r1];
    if !r1.ok {
      o.status, o.reason := r1.status, r1.reason;
      return;
    }
    GenuineWindow(f, n, env.first);
    SampleIs(env.first, env.now1, "measured:probe1:success");
    o.latency := Some(LatencySample(r1.ms, MEASURED, 1, env.now1, "measured:probe1:success"));
    o.interrupted := !env.slept;
    var r2 := ProbeCycle(f, n, env.second);
    o.probes := o.probes + [r2];
    o.ok := true;
    o.withinThreshold := r1.ms.value.r < LATENCY_THRESHOLD_MS;
    if !r2.ok {
      o.status, o.reason := PartialSuccess, r2.reason;
      return;
    }
    GenuineWindow(f, n, env.second);
    SampleIs(env.second, env.now2, "measured:probe2:success");
    JitterIs(env.first, env.second);
    o.latency2 := Some(LatencySample(r2.ms, MEASURED, 1, env.now2, "measured:probe2:success"));
    var jitter := Abs(r2.ms.value.r - r1.ms.value.r);
    o.jitterMs := Some(Fin(Round2(jitter)));
    o.status := Success;
    o.jitterWithinThreshold := o.jitterMs.value.r < JITTER_THRESHOLD_MS;
  }

  /**
   * `measure`: a first sample exactly when the node is probeable and the first cycle
   * is genuine, a second one and a jitter exactly when the second is genuine too.
   */
  method MeasureNode(f: ProbeFacts, n: Node, allowCredentialProbe: bool, env: Session) returns (o: MeasureOutcome)
    ensures fresh(o)
    ensures o.ok <==> Probeable(f, n, allowCredentialProbe) && Genuine(f, n, env.first)
    ensures o.latency == if o.ok then Some(SampleOf(env.first, env.now1, "measured:probe1:success")) else None
    ensures o.latency2 == if o.ok && Genuine(f, n, env.second)
                          then Some(SampleOf(env.second, env.now2, "measured:probe2:success")) else None
    ensures o.jitterMs == if o.ok && Genuine(f, n, env.second) then Some(JitterOf(env.first, env.second)) else None
    ensures o.status == Success <==> o.ok && Genuine(f, n, env.second)
    ensures o.status == PartialSuccess <==> o.ok && !Genuine(f, n, env.second)
    ensures o.withinThreshold <==> o.ok && Round2(WindowMs(env.first).r) < 500.0
    ensures o.jitterWithinThreshold <==> o.jitterMs.Some? && o.jitterMs.value.r < 75.0
    ensures o.interrupted <==> o.ok && !env.slept
    ensures var target := DialTarget(f, n);
            if target.None? then o.status == NoPinnedIp && o.reason == "no_pinned_ip" && o.dialTarget == ""
            else if f.ipKind(target.value) != Some(Public) then
              && o.status == UnsupportedTarget && o.dialTarget == ""
              && o.reason == if f.ipKind(target.value).None? then "unparseable_ip" else "forbidden_target"
            else
              && o.dialTarget == target.value
              && (o.reason == "unsupported_protocol" <==> !Probeable(f, n, allowCredentialProbe))
  {
    hide Genuine, WindowMs, Round2, ProbeGate, DialTarget, JitterOf, SampleOf;
    o := new MeasureOutcome();
    var pinned := DialTarget(f, n);
    if pinned.None? {
      o.status, o.reason := NoPinnedIp, "no_pinned_ip";
      return;
    }
    var kind := f.ipKind(pinned.value);
    if kind.None? {
      o.reason := "unparseable_ip";
      return;
    }
    if kind.value != Public {
      o.reason := "forbidden_target";
      return;
    }
    o.dialTarget := pinned.value;
    if ProbeGate(n, allowCredentialProbe).Some? {
      o.reason := "unsupported_protocol";
      return;
    }
    TwoProbes(f, n, env, o);
  }

  lemma GenuineWindow(f: ProbeFacts, n: Node, c: Cycle)
    requires Genuine(f, n, c)
    ensures WindowMs(c).Fin? && WindowMs(c).r >= 0.0
  {
  }

  /** What measuring leaves on the node: probe 2's sample beats probe 1's, jitter needs both. */
  ghost function Attached(f: ProbeFacts, n: Node, allowCredentialProbe: bool, env: Session): Node {
    if !Probeable(f, n, allowCredentialProbe) || !Genuine(f, n, env.first) then n
    else if !Genuine(f, n, env.second) then
      n.(measuredLatency := Some(SampleOf(env.first, env.now1, "measured:probe1:success")))
    else
      n.(measuredLatency := Some(SampleOf(env.second, env.now2, "measured:probe2:success")),
         jitterMs := Some(JitterOf(env.first, env.second)))
  }

  /** `attach`: the guarded updates never refuse, because only real samples reach them. */
  method Attach(f: ProbeFacts, n: Node, allowCredentialProbe: bool, env: Session) returns (r: Result<Node, ()>)
    ensures r == Ok(Attached(f, n, allowCredentialProbe, env))
  {
    hide WindowMs, Round2, Probeable, Replied, ProbeBytes;
    var out := MeasureNode(f, n, allowCredentialProbe, env);
    if out.latency.None? {
      return Ok(n);
    }
    r := n.WithMeasured(out.latency.value);
    if r.Ok? && out.latency2.Some? {
      r := r.value.WithMeasured(out.latency2.value);
    }
    if r.Ok? && out.jitterMs.Some? {
      JitterNonNegative(env.first, env.second);
      r := r.value.WithJitter(out.jitterMs.value);
    }
  }

  lemma JitterNonNegative(c1: Cycle, c2: Cycle)
    requires WindowMs(c1).Fin? && WindowMs(c2).Fin?
    ensures JitterOf(c1, c2).r >= 0.0
  {
    Round2Monotone(0.0, Abs(Round2(WindowMs(c2).r) - Round2(WindowMs(c1).r)));
    Round2Zero();
  }

  /**
   * Nothing is fabricated on the way to a score: an unmeasured node that ends up
   * scored was probeable and went through two genuine cycles; its latency is probe
   * 2's, inside the gate, its jitter the rounded difference of the two, and its
   * architecture bonus one of the two that honest probing can reach.
   */
  lemma NoFabrication(t: TextFacts, f: ProbeFacts, n: Node, allowCredentialProbe: bool, env: Session)
    requires n.measuredLatency.None? && n.jitterMs.None?
    requires ScoreNode(t, Attached(f, n, allowCredentialProbe, env)).status == Scored
    ensures Probeable(f, n, allowCredentialProbe) && Genuine(f, n, env.first) && Genuine(f, n, env.second)
    ensures var n' := Attached(f, n, allowCredentialProbe, env);
            && Measurable(n')
            && Ms(n') == Round2(WindowMs(env.second).r) && 0.0 < Ms(n') < LATENCY_GATE_MS
            && Jitter(n') == Round2(Abs(Round2(WindowMs(env.second).r) - Round2(WindowMs(env.first).r)))
            && ((n.protocol == VLESS && ArchBonus(t, n') == ("VLESS-TLS", 300))
                || (n.protocol == TROJAN && ArchBonus(t, n') == ("Trojan-TLS", 260)))
  {
    hide Genuine, WindowMs, Round2, ArchBonus, NoOverflow, Probeable;
    var n' := Attached(f, n, allowCredentialProbe, env);
    ScoredExactly(t, n');
    ScoredBonus(t, n');
  }

  /** A rounded positive latency keeps the latency term small, so only the penalty can overflow. */
  lemma PenaltyDecides(t: TextFacts, n: Node)
    requires Measurable(n) && Ms(n) >= 0.01
    ensures NoOverflow(t, n) <==> JITTER_PENALTY_WEIGHT * Jitter(n) <= FloatMax()
  {
    hide FloatMax, ArchBonus;
    FloatMaxLarge();
    ArchBonusRange(t, n);
    assert 1000.0 / Ms(n) <= 100000.0 by {
      if Ms(n) > 0.01 {
        Reciprocal(0.01, Ms(n));
      }
    }
    assert JITTER_PENALTY_WEIGHT * Jitter(n) >= 0.0;
  }

  /** A freshly measured node with usable numbers carries those of two genuine cycles. */
  lemma AttachedNumbers(f: ProbeFacts, n: Node, allowCredentialProbe: bool, env: Session)
    requires n.measuredLatency.None? && n.jitterMs.None? && Measurable(Attached(f, n, allowCredentialProbe, env))
    ensures WindowMs(env.first).Fin? && WindowMs(env.second).Fin?
    ensures Ms(Attached(f, n, allowCredentialProbe, env)) == Round2(WindowMs(env.second).r)
    ensures Jitter(Attached(f, n, allowCredentialProbe, env))
            == Round2(Abs(Round2(WindowMs(env.second).r) - Round2(WindowMs(env.first).r)))
  {
    if Probeable(f, n, allowCredentialProbe) && Genuine(f, n, env.first) && Genuine(f, n, env.second) {
      GenuineWindow(f, n, env.first);
      GenuineWindow(f, n, env.second);
    }
    hide Genuine, WindowMs, Round2, Probeable, Abs;
  }

  /**
   * When a freshly measured node misses its score by overflow: exactly when the jitter
   * penalty leaves the range of finite numbers.  Its latency, rounded to two decimals,
   * never causes that.
   */
  lemma NonfiniteScoreExactly(t: TextFacts, f: ProbeFacts, n: Node, allowCredentialProbe: bool, env: Session)
    requires n.measuredLatency.None? && n.jitterMs.None?
    requires var n' := Attached(f, n, allowCredentialProbe, env); Measurable(n') && ProbeGate(n', true).None?
    ensures var n' := Attached(f, n, allowCredentialProbe, env);
            ScoreNode(t, n') == NotScored(Unscorable, "nonfinite_score") <==>
                JITTER_PENALTY_WEIGHT * Jitter(n') > FloatMax()
  {
    var n' := Attached(f, n, allowCredentialProbe, env);
    AttachedNumbers(f, n, allowCredentialProbe, env);
    hide Attached, WindowMs, Round2, FloatMax, ProbeGate, NoOverflow, ScoreNode;
    Round2Positive(WindowMs(env.second).r);
    PenaltyDecides(t, n');
    OverflowExactly(t, n');
  }

  /** It takes a clock that jumps by the whole range of finite numbers during the first probe. */
  lemma HostileClockUnscorable(t: TextFacts, f: ProbeFacts, n: Node, allowCredentialProbe: bool, env: Session)
    requires n.measuredLatency.None? && n.jitterMs.None? && Probeable(f, n, allowCredentialProbe)
             && ProbeGate(n, true).None?
    requires Genuine(f, n, env.first) && Genuine(f, n, env.second)
    requires WindowMs(env.first) == Fin(FloatMax()) && WindowMs(env.second) == Fin(1.0)
    ensures ScoreNode(t, Attached(f, n, allowCredentialProbe, env)) == NotScored(Unscorable, "nonfinite_score")
  {
    HostileNumbers(f, n, allowCredentialProbe, env);
    hide Attached, Genuine, WindowMs, Round2, Probeable, FloatMax, Measurable, ScoreNode, Abs, ProbeGate;
    HugeJitter();
    NonfiniteScoreExactly(t, f, n, allowCredentialProbe, env);
  }

  lemma RoundOne()
    ensures Round2(1.0) == 1.0
  {
  }

  lemma HostileNumbers(f: ProbeFacts, n: Node, allowCredentialProbe: bool, env: Session)
    requires n.measuredLatency.None? && n.jitterMs.None? && Probeable(f, n, allowCredentialProbe)
             && ProbeGate(n, true).None?
    requires Genuine(f, n, env.first) && Genuine(f, n, env.second)
    requires WindowMs(env.first) == Fin(FloatMax()) && WindowMs(env.second) == Fin(1.0)
    ensures var n' := Attached(f, n, allowCredentialProbe, env);
            && ProbeGate(n', true).None? && Measurable(n') && Jitter(n') == Round2(Abs(1.0 - Round2(FloatMax())))
  {
    hide Genuine, WindowMs, Round2, Probeable, FloatMax, Abs, ProbeGate;
    RoundOne();
    GateKept(f, n, allowCredentialProbe, env);
    JitterNonNegative(env.first, env.second);
    assert JitterOf(env.first, env.second) == Fin(Round2(Abs(1.0 - Round2(FloatMax()))));
  }

  /** Measuring does not change what the gate looks at. */
  lemma GateKept(f: ProbeFacts, n: Node, allowCredentialProbe: bool, env: Session)
    ensures ProbeGate(Attached(f, n, allowCredentialProbe, env), true) == ProbeGate(n, true)
  {
    hide Genuine, WindowMs, Round2, Probeable, SampleOf, JitterOf;
  }

  lemma HugeJitter()
    ensures JITTER_PENALTY_WEIGHT * Round2(Abs(1.0 - Round2(FloatMax()))) > FloatMax()
  {
    hide FloatMax, Round2;
    FloatMaxLarge();
    Round2Near(FloatMax());
    Round2Near(Abs(1.0 - Round2(FloatMax())));
  }
}
