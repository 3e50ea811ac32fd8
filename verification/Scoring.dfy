/** `probe_gate`, `_arch_bonus` and `score_node`. */
module Scoring {
  import opened Common
  import opened Numbers
  import opened Model
  import opened Text

  /** Library facts the scorer relies on: `str.lower` and `str.isdigit`. */
  datatype TextFacts = TextFacts(lower: string -> string, isDigit: string -> bool)

  datatype Status = Scored | Unsupported | Unscorable | InsufficientData

  /** The components a scored outcome carries for audit. */
  datatype Components = Components(latencyTerm: real, jitterPenalty: real, archLabel: string, archBonus: int,
                                   portBonus: int)

  datatype ScoreOutcome = ScoreOutcome(status: Status, score: Option<Float>, detail: string,
                                       components: Option<Components>)

  const LATENCY_GATE_MS := 500.0
  const JITTER_PENALTY_WEIGHT := 1.5
  const GOLDEN_PORTS: set<int> := {443, 8443, 2053, 2083, 2087, 2096, 80, 8080, 8880}
  const PORT_BONUS := 100

  function TransportLabel(t: Transport): string {
    match t
    case TCP => "tcp" case WS => "ws" case GRPC => "grpc" case XHTTP => "xhttp"
    case HTTP2 => "h2" case QUIC => "quic" case UNKNOWN_TRANSPORT => "unknown"
  }

  function ProtocolLabel(p: Protocol): string {
    match p
    case VLESS => "vless" case VMESS => "vmess" case SHADOWSOCKS => "shadowsocks" case TROJAN => "trojan"
    case HYSTERIA2 => "hysteria2" case SOCKS5 => "socks5" case OTHER => "other"
  }

  /** Why this node cannot be probed honestly, or `None` when it can. */
  function ProbeGate(n: Node, allowCredentialProbe: bool): Option<string> {
    match n.protocol
    case VMESS => Some("vmess_aead_envelope_not_implemented")
    case SHADOWSOCKS => Some("ss_target_relay_required")
    case HYSTERIA2 => Some("hy2_quic_out_of_scope")
    case VLESS =>
      if n.security == REALITY then Some("reality_probe_not_implemented")
      else if n.security != TLS then Some("vless_security_layer_not_explicit")
      else if n.transport !in {TCP, UNKNOWN_TRANSPORT}
        then Some("transport_not_supported:" + TransportLabel(n.transport))
      else None
    case TROJAN =>
      if !allowCredentialProbe then Some("credential_probe_disabled")
      else if n.security !in {TLS, UNKNOWN_SECURITY, NO_SECURITY} then Some("trojan_security_layer_not_tls")
      else if n.transport !in {TCP, UNKNOWN_TRANSPORT}
        then Some("transport_not_supported:" + TransportLabel(n.transport))
      else if n.password == "" then Some("trojan_password_missing")
      else None
    case _ => Some("protocol_not_supported:" + ProtocolLabel(n.protocol))
  }

  /** Exactly these nodes can be probed honestly. */
  ghost predicate Honest(n: Node, allowCredentialProbe: bool) {
    && n.transport in {TCP, UNKNOWN_TRANSPORT}
    && ((n.protocol == VLESS && n.security == TLS)
        || (n.protocol == TROJAN && n.security != REALITY && allowCredentialProbe && n.password != ""))
  }

  const UNSUPPORTED := "transport_not_supported:"

  lemma TransportTexts()
    ensures UNSUPPORTED + TransportLabel(WS) == "transport_not_supported:ws"
    ensures UNSUPPORTED + TransportLabel(GRPC) == "transport_not_supported:grpc"
    ensures UNSUPPORTED + TransportLabel(XHTTP) == "transport_not_supported:xhttp"
    ensures UNSUPPORTED + TransportLabel(HTTP2) == "transport_not_supported:h2"
    ensures UNSUPPORTED + TransportLabel(QUIC) == "transport_not_supported:quic"
  {
  }

  /** The gate lets exactly the honest ones through, and says of any other what stands in the way. */
  lemma GateTable(n: Node, allow: bool)
    ensures var gate, vless, trojan := ProbeGate(n, allow), n.protocol == VLESS, n.protocol == TROJAN;
            && (gate.None? <==> Honest(n, allow))
            && (n.protocol == VMESS ==> gate == Some("vmess_aead_envelope_not_implemented"))
            && (n.protocol == SHADOWSOCKS ==> gate == Some("ss_target_relay_required"))
            && (n.protocol == HYSTERIA2 ==> gate == Some("hy2_quic_out_of_scope"))
            && (n.protocol == SOCKS5 ==> gate == Some("protocol_not_supported:socks5"))
            && (n.protocol == OTHER ==> gate == Some("protocol_not_supported:other"))
            && (vless && n.security == REALITY ==> gate == Some("reality_probe_not_implemented"))
            && (vless && n.security !in {REALITY, TLS} ==> gate == Some("vless_security_layer_not_explicit"))
            && (trojan && !allow ==> gate == Some("credential_probe_disabled"))
            && (trojan && allow && n.security == REALITY ==> gate == Some("trojan_security_layer_not_tls"))
            && ((vless && n.security == TLS) || (trojan && allow && n.security != REALITY) ==>
                  && (n.transport == WS ==> gate == Some("transport_not_supported:ws"))
                  && (n.transport == GRPC ==> gate == Some("transport_not_supported:grpc"))
                  && (n.transport == XHTTP ==> gate == Some("transport_not_supported:xhttp"))
                  && (n.transport == HTTP2 ==> gate == Some("transport_not_supported:h2"))
                  && (n.transport == QUIC ==> gate == Some("transport_not_supported:quic"))
                  && (trojan && n.transport in {TCP, UNKNOWN_TRANSPORT} && n.password == "" ==>
                        gate == Some("trojan_password_missing")))
  {
    TransportTexts();
    assert "protocol_not_supported:" + ProtocolLabel(SOCKS5) == "protocol_not_supported:socks5";
    assert "protocol_not_supported:" + ProtocolLabel(OTHER) == "protocol_not_supported:other";
    hide TransportLabel, ProtocolLabel;
  }

  predicate Contains(s: string, sub: string) {
    exists k :: 0 <= k <= |s| - |sub| && StartsWith(s[k..], sub)
  }

  /** Architecture label and bonus; the first matching rule wins. */
  function ArchBonus(f: TextFacts, n: Node): (string, int) {
    var flow := f.lower(n.flow);
    var raw := f.lower(n.rawUrl);
    var host := n.endpoint.host;
    if n.transport == XHTTP then ("XHTTP-Elite", 500)
    else if n.security == REALITY && Contains(flow, "xtls-rprx-vision") then
      ("Reality-Vision", if Contains(raw, "xpaddingbytes") || Contains(raw, "padding") then 500 else 450)
    else if n.security == REALITY && (n.transport == GRPC || n.serviceName != "") then ("Reality-gRPC", 420)
    else if n.security == REALITY then ("Reality", 380)
    else if n.protocol == VLESS then ("VLESS-TLS", 300)
    else if n.protocol == VMESS then ("VMess-TLS", 280)
    else if n.protocol == HYSTERIA2 then ("Hysteria2", 320)
    else if n.protocol == TROJAN then ("Trojan-TLS", 260)
    else if Contains(host, "workers.dev") || Contains(host, "pages.dev") then ("CF-Worker", 180)
    else if |Split(host, ".")| == 4 && (forall x | x in Split(host, ".") :: f.isDigit(x)) then ("CF-CleanIP", 200)
    else if n.protocol == SHADOWSOCKS then ("Shadowsocks", 100)
    else if n.protocol == SOCKS5 then ("SOCKS5", 100)
    else ("OTHER", 100)
  }

  function PortBonus(n: Node): int {
    if n.endpoint.port in GOLDEN_PORTS then PORT_BONUS else 0
  }

  function NotScored(status: Status, detail: string): ScoreOutcome {
    ScoreOutcome(status, None, detail, None)
  }

  /** latency term - jitter penalty + architecture bonus + port bonus, left to right. */
  function RawScore(f: TextFacts, n: Node, ms: real, jitter: real): Float
    requires ms > 0.0
  {
    Add(Add(Sub(Clip(1000.0 / ms), Clip(JITTER_PENALTY_WEIGHT * jitter)), Fin((ArchBonus(f, n).1) as real)),
        Fin(PortBonus(n) as real))
  }

  function ScoreNode(f: TextFacts, n: Node): ScoreOutcome {
    if ProbeGate(n, true).Some? then NotScored(Unsupported, "unsupported_protocol")
    else if n.measuredLatency.None? then NotScored(InsufficientData, "no_measured_sample")
    else
      var sample := n.measuredLatency.value;
      if sample.kind != MEASURED then NotScored(Unscorable, "measured_kind_invalid")
      else if sample.valueMs.None? then NotScored(Unscorable, "measured_failed_null")
      else if !sample.valueMs.value.Finite() then NotScored(Unscorable, "nonfinite_latency")
      else
        var ms := sample.valueMs.value.r;
        if ms <= 0.0 then NotScored(Unscorable, "latency_nonpositive")
        else if ms >= LATENCY_GATE_MS then NotScored(Unscorable, "latency_over_threshold")
        else if n.jitterMs.None? then NotScored(InsufficientData, "jitter_missing")
        else if !n.jitterMs.value.Finite() || n.jitterMs.value.r < 0.0 then NotScored(Unscorable, "invalid_jitter")
        else
          var jitter := n.jitterMs.value.r;
          var score := RawScore(f, n, ms, jitter);
          if !score.Finite() then NotScored(Unscorable, "nonfinite_score")
          else
            var (arch, bonus) := ArchBonus(f, n);
            ScoreOutcome(Scored, Some(Fin(Round2(score.r))), "",
              Some(Components(Round4(1000.0 / ms), Round4(JITTER_PENALTY_WEIGHT * jitter), arch, bonus, PortBonus(n))))
  }

  /** The measurements a score may be computed from. */
  ghost predicate Measurable(n: Node) {
    && n.measuredLatency.Some? && n.measuredLatency.value.kind == MEASURED
    && n.measuredLatency.value.valueMs.Some? && n.measuredLatency.value.valueMs.value.Finite()
    && 0.0 < n.measuredLatency.value.valueMs.value.r < LATENCY_GATE_MS
    && n.jitterMs.Some? && n.jitterMs.value.Finite() && n.jitterMs.value.r >= 0.0
  }

  function Ms(n: Node): real
    requires n.measuredLatency.Some? && n.measuredLatency.value.valueMs.Some?
             && n.measuredLatency.value.valueMs.value.Finite()
  {
    n.measuredLatency.value.valueMs.value.r
  }

  function Jitter(n: Node): real
    requires n.jitterMs.Some? && n.jitterMs.value.Finite()
  {
    n.jitterMs.value.r
  }

  function Bonus(f: TextFacts, n: Node): int {
    ArchBonus(f, n).1 + PortBonus(n)
  }

  /** No term of the formula leaves the range of finite numbers. */
  ghost predicate NoOverflow(f: TextFacts, n: Node)
    requires Measurable(n)
  {
    var d := 1000.0 / Ms(n) - JITTER_PENALTY_WEIGHT * Jitter(n);
    && 1000.0 / Ms(n) <= FloatMax() && JITTER_PENALTY_WEIGHT * Jitter(n) <= FloatMax()
    && d + (ArchBonus(f, n).1) as real <= FloatMax() && d + Bonus(f, n) as real <= FloatMax()
  }

  lemma ArchBonusRange(f: TextFacts, n: Node)
    ensures 100 <= ArchBonus(f, n).1 <= 500
  {
  }

  /** The formula over the reals, whenever nothing overflows; and only then is it finite. */
  lemma RawScoreExactly(f: TextFacts, n: Node)
    requires Measurable(n)
    ensures RawScore(f, n, Ms(n), Jitter(n)).Finite() <==> NoOverflow(f, n)
    ensures NoOverflow(f, n) ==>
              RawScore(f, n, Ms(n), Jitter(n))
                  == Fin(1000.0 / Ms(n) - JITTER_PENALTY_WEIGHT * Jitter(n) + Bonus(f, n) as real)
  {
    hide FloatMax, ArchBonus;
    FloatMaxLarge();
    ArchBonusRange(f, n);
    assert 1000.0 / Ms(n) > 0.0;
    assert JITTER_PENALTY_WEIGHT * Jitter(n) >= 0.0;
  }

  /**
   * A node is scored exactly when the gate lets it through, it carries a usable
   * measured latency and jitter, and the formula stays finite; the score is then the
   * formula rounded to two decimals.
   */
  lemma ScoredExactly(f: TextFacts, n: Node)
    ensures ScoreNode(f, n).status == Scored <==> ProbeGate(n, true).None? && Measurable(n) && NoOverflow(f, n)
    ensures ScoreNode(f, n).status == Scored ==>
              (ScoreNode(f, n).score
               == Some(Fin(Round2(1000.0 / Ms(n) - JITTER_PENALTY_WEIGHT * Jitter(n) + Bonus(f, n) as real))))
    ensures ScoreNode(f, n).status != Scored ==> ScoreNode(f, n).score == None
  {
    hide ArchBonus, FloatMax, Round2, ProbeGate, Clip;
    if Measurable(n) {
      RawScoreExactly(f, n);
    }
  }

  /** A measured node that passes the gate is unscorable exactly when some term overflows. */
  lemma OverflowExactly(f: TextFacts, n: Node)
    requires Measurable(n) && ProbeGate(n, true).None?
    ensures ScoreNode(f, n) == NotScored(Unscorable, "nonfinite_score") <==> !NoOverflow(f, n)
  {
    RawScoreExactly(f, n);
    hide ArchBonus, FloatMax, Round2, ProbeGate, Clip, NoOverflow, RawScore;
  }

  /** Only VLESS over TLS and Trojan reach a score, each with its own fixed bonus. */
  lemma ScoredBonus(f: TextFacts, n: Node)
    requires ProbeGate(n, true).None?
    ensures (n.protocol == VLESS && ArchBonus(f, n) == ("VLESS-TLS", 300))
            || (n.protocol == TROJAN && ArchBonus(f, n) == ("Trojan-TLS", 260))
  {
  }

  /** 2^-1024, a positive number binary64 can hold. */
  function TinyLatency(): real {
    1.0 / Pow2(1024)
  }

  lemma Cancel(a: real, b: real, c: real)
    requires c > 0.0 && a * c == b * c
    ensures a == b
  {
    var d := a - b;
    assert d * c == a * c - b * c;
    if d != 0.0 {
      NonzeroProduct(d, c);
    }
  }

  lemma NonzeroProduct(d: real, c: real)
    requires d != 0.0 && c > 0.0
    ensures d * c != 0.0
  {
  }

  lemma InvertTwice(y: real)
    requires y >= 1.0
    ensures 0.0 < 1.0 / y <= 1.0 && 1000.0 / (1.0 / y) == 1000.0 * y
  {
    var x := 1.0 / y;
    assert x * y == 1.0 && x > 0.0;
    assert 1000.0 / x * x == 1000.0;
    assert 1000.0 * y * x == 1000.0 * (y * x);
    Cancel(1000.0 / x, 1000.0 * y, x);
  }

  /**
   * The scorer's "cannot happen" branch does happen: at a finite positive latency of
   * 2^-1024 ms the latency term overflows and the node is reported unscorable.
   */
  lemma NonfiniteScoreReachable(f: TextFacts, n: Node)
    requires ProbeGate(n, true).None? && Measurable(n) && Ms(n) == TinyLatency()
    ensures ScoreNode(f, n) == NotScored(Unscorable, "nonfinite_score")
  {
    hide Pow2, ArchBonus, ProbeGate;
    InvertTwice(Pow2(1024));
    RawScoreExactly(f, n);
  }

  /** At equal bonuses, lower latency and no greater jitter never scores lower, rounding included. */
  lemma ScoreMonotone(f: TextFacts, a: Node, b: Node)
    requires ScoreNode(f, a).status == Scored && ScoreNode(f, b).status == Scored
    requires Bonus(f, a) == Bonus(f, b) && Ms(a) < Ms(b) && Jitter(a) <= Jitter(b)
    ensures ScoreNode(f, a).score.value.r >= ScoreNode(f, b).score.value.r
  {
    hide ArchBonus, FloatMax, Round2, ProbeGate, Clip, NoOverflow;
    ScoredExactly(f, a);
    ScoredExactly(f, b);
    Reciprocal(Ms(a), Ms(b));
    Round2Monotone(1000.0 / Ms(b) - JITTER_PENALTY_WEIGHT * Jitter(b) + Bonus(f, b) as real,
                   1000.0 / Ms(a) - JITTER_PENALTY_WEIGHT * Jitter(a) + Bonus(f, a) as real);
  }

  lemma Reciprocal(x: real, y: real)
    requires 0.0 < x < y
    ensures 1000.0 / y < 1000.0 / x
  {
    assert 1000.0 / x * x == 1000.0 && 1000.0 / y * y == 1000.0;
  }

  // ---------------------------------------------------------------------------
  // In numbers and words
  // ---------------------------------------------------------------------------

  lemma ContainsExactly(s: string, sub: string)
    ensures Contains(s, sub) <==> Shows(s, sub)
  {
    if Contains(s, sub) {
      var k :| 0 <= k <= |s| - |sub| && StartsWith(s[k..], sub);
      assert s == s[..k] + sub + s[k..][|sub|..];
    }
    if Shows(s, sub) {
      var p, r :| s == p + sub + r;
      assert s[|p|..] == sub + r && s[|p|..][..|sub|] == sub;
    }
  }

  lemma PaddingShows(s: string)
    ensures Shows(s, "xpaddingbytes") ==> Shows(s, "padding")
  {
    if Shows(s, "xpaddingbytes") {
      var p, r :| s == p + "xpaddingbytes" + r;
      assert "xpaddingbytes" == "x" + "padding" + "bytes";
      assert s == (p + "x") + "padding" + ("bytes" + r);
    }
  }

  /** REALITY is judged by flow, padding, transport and service name. */
  lemma RealityBonus(f: TextFacts, n: Node)
    requires n.transport != XHTTP && n.security == REALITY
    ensures ArchBonus(f, n)
            == if Shows(f.lower(n.flow), "xtls-rprx-vision") then
                 ("Reality-Vision", if Shows(f.lower(n.rawUrl), "padding") then 500 else 450)
               else if n.transport == GRPC || n.serviceName != "" then ("Reality-gRPC", 420)
               else ("Reality", 380)
  {
    ContainsExactly(f.lower(n.flow), "xtls-rprx-vision");
    ContainsExactly(f.lower(n.rawUrl), "xpaddingbytes");
    ContainsExactly(f.lower(n.rawUrl), "padding");
    PaddingShows(f.lower(n.rawUrl));
    hide Contains, Shows;
  }

  /** Any other security is judged by protocol, and the rest by its host. */
  lemma PlainBonus(f: TextFacts, n: Node)
    requires n.security != REALITY
    ensures var b, host := ArchBonus(f, n), n.endpoint.host;
            && (n.transport == XHTTP ==> b == ("XHTTP-Elite", 500))
            && (n.transport != XHTTP ==>
                  && (n.protocol == VLESS ==> b == ("VLESS-TLS", 300))
                  && (n.protocol == VMESS ==> b == ("VMess-TLS", 280))
                  && (n.protocol == HYSTERIA2 ==> b == ("Hysteria2", 320))
                  && (n.protocol == TROJAN ==> b == ("Trojan-TLS", 260))
                  && (n.protocol in {SHADOWSOCKS, SOCKS5, OTHER} ==>
                        if Shows(host, "workers.dev") || Shows(host, "pages.dev") then b == ("CF-Worker", 180)
                        else if |Split(host, ".")| == 4 && forall x | x in Split(host, ".") :: f.isDigit(x) then
                          b == ("CF-CleanIP", 200)
                        else
                          && b.1 == 100 && (n.protocol == SHADOWSOCKS ==> b.0 == "Shadowsocks")
                          && (n.protocol == SOCKS5 ==> b.0 == "SOCKS5") && (n.protocol == OTHER ==> b.0 == "OTHER")))
  {
    ContainsExactly(n.endpoint.host, "workers.dev");
    ContainsExactly(n.endpoint.host, "pages.dev");
    hide Contains, Shows, Split;
  }

  /** 100 for each of nine ports and nothing for any other. */
  lemma PortTable(n: Node)
    ensures n.endpoint.port in {80, 443, 2053, 2083, 2087, 2096, 8080, 8443, 8880} ==> PortBonus(n) == 100
    ensures n.endpoint.port !in {80, 443, 2053, 2083, 2087, 2096, 8080, 8443, 8880} ==> PortBonus(n) == 0
  {
  }

  /** Why a node has no score, in the order in which it is asked. */
  lemma RefusedTable(f: TextFacts, n: Node)
    ensures var o, s := ScoreNode(f, n), n.measuredLatency;
            if !Honest(n, true) then o == ScoreOutcome(Unsupported, None, "unsupported_protocol", None)
            else if s.None? then o == ScoreOutcome(InsufficientData, None, "no_measured_sample", None)
            else if s.value.kind != MEASURED then o == ScoreOutcome(Unscorable, None, "measured_kind_invalid", None)
            else if s.value.valueMs.None? then o == ScoreOutcome(Unscorable, None, "measured_failed_null", None)
            else if !s.value.valueMs.value.Fin? then o == ScoreOutcome(Unscorable, None, "nonfinite_latency", None)
            else if s.value.valueMs.value.r <= 0.0 then
              o == ScoreOutcome(Unscorable, None, "latency_nonpositive", None)
            else if s.value.valueMs.value.r >= 500.0 then
              o == ScoreOutcome(Unscorable, None, "latency_over_threshold", None)
            else if n.jitterMs.None? then o == ScoreOutcome(InsufficientData, None, "jitter_missing", None)
            else if !n.jitterMs.value.Fin? || n.jitterMs.value.r < 0.0 then
              o == ScoreOutcome(Unscorable, None, "invalid_jitter", None)
            else o.status == Scored || o == ScoreOutcome(Unscorable, None, "nonfinite_score", None)
  {
    GateTable(n, true);
    hide ProbeGate, Honest, ArchBonus, PortBonus, RawScore, Round2, Round4, FloatMax;
  }

  /** The score in numbers: only VLESS and Trojan get one, with 300 and 260 points for the architecture. */
  lemma ScoreSpelled(f: TextFacts, n: Node)
    requires ScoreNode(f, n).status == Scored
    ensures n.protocol in {VLESS, TROJAN} && Measurable(n)
    ensures var base := if n.protocol == VLESS then 300 else 260;
            var port := if n.endpoint.port in {80, 443, 2053, 2083, 2087, 2096, 8080, 8443, 8880} then 100 else 0;
            && ScoreNode(f, n).score
               == Some(Fin(Round2(1000.0 / Ms(n) - 1.5 * Jitter(n) + (base + port) as real)))
            && ScoreNode(f, n).components
               == Some(Components(Round4(1000.0 / Ms(n)), Round4(1.5 * Jitter(n)),
                                  if n.protocol == VLESS then "VLESS-TLS" else "Trojan-TLS", base, port))
            && ScoreNode(f, n).detail == ""
  {
    hide *;
    ScoreValue(f, n);
    ComponentsKept(f, n);
    BonusParts(f, n);
  }

  lemma BonusParts(f: TextFacts, n: Node)
    requires ProbeGate(n, true).None?
    ensures n.protocol in {VLESS, TROJAN}
    ensures ArchBonus(f, n) == (if n.protocol == VLESS then ("VLESS-TLS", 300) else ("Trojan-TLS", 260))
    ensures PortBonus(n) == if n.endpoint.port in {80, 443, 2053, 2083, 2087, 2096, 8080, 8443, 8880} then 100 else 0
  {
    ScoredBonus(f, n);
    PortTable(n);
    hide ProbeGate, ArchBonus, PortBonus;
  }

  lemma ScoreValue(f: TextFacts, n: Node)
    requires ScoreNode(f, n).status == Scored
    ensures ProbeGate(n, true).None? && Measurable(n)
    ensures ScoreNode(f, n).score
            == Some(Fin(Round2(1000.0 / Ms(n) - 1.5 * Jitter(n) + (ArchBonus(f, n).1 + PortBonus(n)) as real)))
  {
    hide ProbeGate, ArchBonus, PortBonus, Round2, NoOverflow, ScoreNode;
    ScoredExactly(f, n);
    Weighed(Jitter(n));
  }

  lemma Weighed(x: real)
    ensures JITTER_PENALTY_WEIGHT * x == 1.5 * x
  {
  }

  lemma ComponentsKept(f: TextFacts, n: Node)
    requires ScoreNode(f, n).status == Scored
    ensures Measurable(n) && ScoreNode(f, n).detail == ""
    ensures ScoreNode(f, n).components
            == Some(Components(Round4(1000.0 / Ms(n)), Round4(1.5 * Jitter(n)),
                               ArchBonus(f, n).0, ArchBonus(f, n).1, PortBonus(n)))
  {
    hide ProbeGate, ArchBonus, PortBonus, RawScore, Round2, Round4, FloatMax;
  }
}
