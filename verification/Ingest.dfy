/** Text ingestion line by line, and the merging of results. */
module Ingest {
  import opened Common
  import opened Model
  import opened Text

  datatype SourceKind = LocalFile | RawText | Url

  datatype SourceOrigin = SourceOrigin(name: string, kind: SourceKind, location: string)

  datatype IngestError = IngestError(originName: string, lineNo: int, reason: string)

  datatype IngestedNode = IngestedNode(node: Node, origin: SourceOrigin, lineNo: int, lineHash: string)

  datatype IngestStats = IngestStats(seen: nat, parsed: nat, rejected: nat, byProtocol: map<Protocol, nat>)

  datatype IngestResult = IngestResult(origin: SourceOrigin, nodes: seq<IngestedNode>, errors: seq<IngestError>,
                                       stats: IngestStats)

  const MAX_LINE_CHARS := 8192
  const EMPTY_STATS := IngestStats(0, 0, 0, map[])

  /** `str.strip`, the configuration parser, and the line hash. */
  datatype LineFacts = LineFacts(space: char -> bool, parse: string -> Option<Node>, hash: string -> string)

  // ---------------------------------------------------------------------------
  // Lines of a text
  // ---------------------------------------------------------------------------

  /** Where `str.splitlines` cuts. */
  predicate LineBreak(c: char) {
    c in {'\n', '\r', '\U{0B}', '\U{0C}', '\U{1C}', '\U{1D}', '\U{1E}', '\U{85}', '\U{2028}', '\U{2029}'}
  }

  predicate Unbroken(line: string) {
    forall k | 0 <= k < |line| :: !LineBreak(line[k])
  }

  function FirstLine(text: string): (r: string)
    ensures |r| <= |text| && text[..|r|] == r && Unbroken(r) && (|r| < |text| ==> LineBreak(text[|r|]))
  {
    if text == "" || LineBreak(text[0]) then "" else [text[0]] + FirstLine(text[1..])
  }

  /** What follows the break at `i`: a carriage return and the line feed after it are one break. */
  function AfterBreak(text: string, i: nat): string
    requires i < |text|
  {
    if text[i] == '\r' && i + 1 < |text| && text[i + 1] == '\n' then text[i + 2..] else text[i + 1..]
  }

  /** `str.splitlines`. */
  function SplitLines(text: string): seq<string> {
    var i := |FirstLine(text)|;
    if text == "" then []
    else if i == |text| then [text]
    else [text[..i]] + SplitLines(AfterBreak(text, i))
  }

  const BOM: char := '\U{FEFF}'

  /** `_split_source_lines`: without a leading byte order mark. */
  function LinesIn(text: string): seq<string> {
    SplitLines(if text != "" && text[0] == BOM then text[1..] else text)
  }

  /** No line of a text holds a line break. */
  lemma {:induction false} LinesUnbroken(text: string)
    ensures forall k | 0 <= k < |SplitLines(text)| :: Unbroken(SplitLines(text)[k])
  {
    var i := |FirstLine(text)|;
    if i < |text| {
      LinesUnbroken(AfterBreak(text, i));
    }
  }

  /** Lines, each with its own line end. */
  function Terminated(lines: seq<string>, end: string): string {
    if lines == [] then "" else lines[0] + end + Terminated(lines[1..], end)
  }

  lemma {:induction false} FirstLineIs(line: string, rest: string)
    requires Unbroken(line) && (rest == "" || LineBreak(rest[0]))
    ensures FirstLine(line + rest) == line
  {
    if line != "" {
      assert (line + rest)[1..] == line[1..] + rest;
      FirstLineIs(line[1..], rest);
    } else {
      assert line + rest == rest;
    }
  }

  /** The first line and its end are taken off together. */
  lemma FirstLineSplits(line: string, end: string, rest: string)
    requires end in {"\n", "\r\n"} && Unbroken(line)
    ensures SplitLines(line + end + rest) == [line] + SplitLines(rest)
  {
    FirstLineIs(line, end + rest);
    var text, i := line + end + rest, |line|;
    assert text == line + (end + rest);
    hide FirstLine, Unbroken, LineBreak;
    assert text[..i] == line && text[i] == end[0] && text[i + |end|..] == rest;
    if end == "\r\n" {
      assert text[i + 1] == '\n' && text[i + 2..] == rest;
    } else {
      assert text[i] == '\n' && text[i + 1..] == rest;
    }
  }

  /** Unbroken lines written with either line end are read back exactly. */
  lemma {:induction false} LinesReadBack(lines: seq<string>, end: string)
    requires end in {"\n", "\r\n"} && forall k | 0 <= k < |lines| :: Unbroken(lines[k])
    ensures SplitLines(Terminated(lines, end)) == lines
  {
    if lines != [] {
      LinesReadBack(lines[1..], end);
      FirstLineSplits(lines[0], end, Terminated(lines[1..], end));
      assert lines == [lines[0]] + lines[1..];
      hide SplitLines, Unbroken;
    }
  }

  // ---------------------------------------------------------------------------
  // One line
  // ---------------------------------------------------------------------------

  datatype LineVerdict = Blank | Rejected(reason: string) | Parsed(node: Node)

  predicate HasScheme(line: string) {
    exists k :: 0 <= k <= |line| && StartsWith(line[k..], "://")
  }

  function Verdict(f: LineFacts, raw: string): LineVerdict {
    var line := Strip(raw, f.space);
    if line == "" then Blank
    else if !HasScheme(line) then Rejected("no_scheme")
    else if |line| > MAX_LINE_CHARS then Rejected("too_long")
    else
      match f.parse(line)
      case None => Rejected("parse")
      case Some(node) => Parsed(node)
  }

  /** Which lines are nodes, and why the others are not. */
  lemma VerdictTable(f: LineFacts, raw: string)
    ensures var line, v := Strip(raw, f.space), Verdict(f, raw);
            if line == "" then v == Blank
            else if !Shows(line, "://") then v == Rejected("no_scheme")
            else if |line| > 8192 then v == Rejected("too_long")
            else if f.parse(line).None? then v == Rejected("parse")
            else v == Parsed(f.parse(line).value)
  {
    var line := Strip(raw, f.space);
    if HasScheme(line) {
      var k :| 0 <= k <= |line| && StartsWith(line[k..], "://");
      assert line == line[..k] + "://" + line[k..][3..];
    }
    if Shows(line, "://") {
      var p, r :| line == p + "://" + r;
      assert line[|p|..] == "://" + r && line[|p|..][..3] == "://";
    }
    hide Strip, HasScheme, Shows;
  }

  /** Ten characters break lines, a carriage return and the line feed after it together; a leading mark is no text. */
  lemma BreaksExactly(line: string, c: char, rest: string)
    requires Unbroken(line)
    ensures LineBreak(c) <==> c as int in {0x0A, 0x0B, 0x0C, 0x0D, 0x1C, 0x1D, 0x1E, 0x85, 0x2028, 0x2029}
    ensures LineBreak(c) && !(c == '\r' && rest != "" && rest[0] == '\n') ==>
              SplitLines(line + [c] + rest) == [line] + SplitLines(rest)
    ensures SplitLines(line + "\r\n" + rest) == [line] + SplitLines(rest)
    ensures line != "" ==> SplitLines(line) == [line]
    ensures LinesIn(['\U{FEFF}'] + line) == SplitLines(line)
    ensures line != "" && line[0] != '\U{FEFF}' ==> LinesIn(line) == SplitLines(line)
  {
    if LineBreak(c) && !(c == '\r' && rest != "" && rest[0] == '\n') {
      BreakSplits(line, c, rest);
    }
    FirstLineSplits(line, "\r\n", rest);
    FirstLineIs(line, "");
    assert line + "" == line;
    assert (['\U{FEFF}'] + line)[1..] == line;
    hide SplitLines, FirstLine, Unbroken;
  }

  lemma SplitAt(text: string, i: nat)
    requires i == |FirstLine(text)| < |text|
    ensures SplitLines(text) == [text[..i]] + SplitLines(AfterBreak(text, i))
  {
    hide FirstLine, AfterBreak;
  }

  lemma AfterOne(line: string, c: char, rest: string)
    requires !(c == '\r' && rest != "" && rest[0] == '\n')
    ensures AfterBreak(line + [c] + rest, |line|) == rest && (line + [c] + rest)[..|line|] == line
  {
    var text, i := line + [c] + rest, |line|;
    assert text[i] == c && text[i + 1..] == rest;
    assert i + 1 < |text| ==> text[i + 1] == rest[0];
  }

  lemma BreakSplits(line: string, c: char, rest: string)
    requires Unbroken(line) && LineBreak(c) && !(c == '\r' && rest != "" && rest[0] == '\n')
    ensures SplitLines(line + [c] + rest) == [line] + SplitLines(rest)
  {
    FirstBefore(line, c, rest);
    AfterOne(line, c, rest);
    hide *;
    SplitAt(line + [c] + rest, |line|);
  }

  lemma FirstBefore(line: string, c: char, rest: string)
    requires Unbroken(line) && LineBreak(c)
    ensures FirstLine(line + [c] + rest) == line
  {
    var tail := [c] + rest;
    assert tail[0] == c;
    FirstLineIs(line, tail);
    assert line + [c] + rest == line + tail;
    hide *;
  }

  // ---------------------------------------------------------------------------
  // A list of lines
  // ---------------------------------------------------------------------------

  /** Nodes of the first `n` lines, numbered from 1. */
  function NodesOf(f: LineFacts, o: SourceOrigin, lines: seq<string>, n: nat): seq<IngestedNode>
    requires n <= |lines|
  {
    if n == 0 then []
    else
      NodesOf(f, o, lines, n - 1)
      + match Verdict(f, lines[n - 1])
        case Parsed(node) => [IngestedNode(node, o, n, f.hash(Strip(lines[n - 1], f.space)))]
        case _ => []
  }

  function ErrorsOf(f: LineFacts, o: SourceOrigin, lines: seq<string>, n: nat): seq<IngestError>
    requires n <= |lines|
  {
    if n == 0 then []
    else
      ErrorsOf(f, o, lines, n - 1)
      + match Verdict(f, lines[n - 1])
        case Rejected(reason) => [IngestError(o.name, n, reason)]
        case _ => []
  }

  function BlanksOf(f: LineFacts, lines: seq<string>, n: nat): nat
    requires n <= |lines|
  {
    if n == 0 then 0 else BlanksOf(f, lines, n - 1) + (if Verdict(f, lines[n - 1]).Blank? then 1 else 0)
  }

  function Count(m: map<Protocol, nat>, p: Protocol): nat {
    if p in m then m[p] else 0
  }

  /** How many nodes there are of each protocol. */
  function Tally(nodes: seq<IngestedNode>): map<Protocol, nat> {
    if nodes == [] then map[]
    else
      var m := Tally(nodes[..|nodes| - 1]);
      var p := nodes[|nodes| - 1].node.protocol;
      m[p := Count(m, p) + 1]
  }

  function Ingested(f: LineFacts, o: SourceOrigin, lines: seq<string>): IngestResult {
    var nodes := NodesOf(f, o, lines, |lines|);
    var errors := ErrorsOf(f, o, lines, |lines|);
    IngestResult(o, nodes, errors, IngestStats(|lines|, |nodes|, |errors|, Tally(nodes)))
  }

  lemma TallySnoc(nodes: seq<IngestedNode>, w: IngestedNode)
    ensures Tally(nodes + [w]) == Tally(nodes)[w.node.protocol := Count(Tally(nodes), w.node.protocol) + 1]
  {
    assert (nodes + [w])[..|nodes|] == nodes;
  }

  /** `ingest_text`: counters and lists grow line by line. */
  method IngestText(f: LineFacts, lines: seq<string>, o: SourceOrigin) returns (r: IngestResult)
    ensures r == Ingested(f, o, lines)
  {
    hide Verdict;
    var nodes: seq<IngestedNode> := [];
    var errors: seq<IngestError> := [];
    var seen, parsed, rejected := 0, 0, 0;
    var byProtocol: map<Protocol, nat> := map[];
    while seen < |lines|
      invariant 0 <= seen <= |lines|
      invariant nodes == NodesOf(f, o, lines, seen) && errors == ErrorsOf(f, o, lines, seen)
      invariant parsed == |nodes| && rejected == |errors| && byProtocol == Tally(nodes)
    {
      var raw := lines[seen];
      seen := seen + 1;
      match Verdict(f, raw)
      case Blank =>
      case Rejected(reason) =>
        errors := errors + [IngestError(o.name, seen, reason)];
        rejected := rejected + 1;
      case Parsed(node) =>
        var w := IngestedNode(node, o, seen, f.hash(Strip(raw, f.space)));
        TallySnoc(nodes, w);
        nodes := nodes + [w];
        parsed := parsed + 1;
        byProtocol := byProtocol[node.protocol := Count(byProtocol, node.protocol) + 1];
    }
    return IngestResult(o, nodes, errors, IngestStats(seen, parsed, rejected, byProtocol));
  }

  /** Where a node of the list comes from: its own line, and nothing else on that line. */
  lemma {:induction false} NodeComesFrom(f: LineFacts, o: SourceOrigin, lines: seq<string>, n: nat, i: nat)
    requires n <= |lines| && i < |NodesOf(f, o, lines, n)|
    ensures var w := NodesOf(f, o, lines, n)[i];
            && 1 <= w.lineNo <= n && w.origin == o
            && Verdict(f, lines[w.lineNo - 1]) == Parsed(w.node)
            && w.lineHash == f.hash(Strip(lines[w.lineNo - 1], f.space))
  {
    hide Verdict;
    if i < |NodesOf(f, o, lines, n - 1)| {
      NodeComesFrom(f, o, lines, n - 1, i);
    }
  }

  lemma {:induction false} ErrorComesFrom(f: LineFacts, o: SourceOrigin, lines: seq<string>, n: nat, i: nat)
    requires n <= |lines| && i < |ErrorsOf(f, o, lines, n)|
    ensures var e := ErrorsOf(f, o, lines, n)[i];
            1 <= e.lineNo <= n && e.originName == o.name && Verdict(f, lines[e.lineNo - 1]) == Rejected(e.reason)
  {
    hide Verdict;
    if i < |ErrorsOf(f, o, lines, n - 1)| {
      ErrorComesFrom(f, o, lines, n - 1, i);
    }
  }

  /** Every nonblank line leaves its node or its error. */
  lemma {:induction false} LineLeaves(f: LineFacts, o: SourceOrigin, lines: seq<string>, n: nat, k: nat)
    requires k < n <= |lines|
    ensures Verdict(f, lines[k]).Parsed? ==> exists w :: w in NodesOf(f, o, lines, n) && w.lineNo == k + 1
    ensures Verdict(f, lines[k]).Rejected? ==> exists e :: e in ErrorsOf(f, o, lines, n) && e.lineNo == k + 1
  {
    hide Verdict;
    if k < n - 1 {
      LineLeaves(f, o, lines, n - 1, k);
    } else {
      var ws, es := NodesOf(f, o, lines, n), ErrorsOf(f, o, lines, n);
      assert Verdict(f, lines[k]).Parsed? ==> ws[|ws| - 1].lineNo == n;
      assert Verdict(f, lines[k]).Rejected? ==> es[|es| - 1].lineNo == n;
    }
  }

  /** Line numbers strictly increase, in the nodes and in the errors. */
  lemma {:induction false} LinesIncrease(f: LineFacts, o: SourceOrigin, lines: seq<string>, n: nat)
    requires n <= |lines|
    ensures forall i, j | 0 <= i < j < |NodesOf(f, o, lines, n)| ::
              NodesOf(f, o, lines, n)[i].lineNo < NodesOf(f, o, lines, n)[j].lineNo
    ensures forall i, j | 0 <= i < j < |ErrorsOf(f, o, lines, n)| ::
              ErrorsOf(f, o, lines, n)[i].lineNo < ErrorsOf(f, o, lines, n)[j].lineNo
  {
    hide Verdict;
    if n > 0 {
      LinesIncrease(f, o, lines, n - 1);
      var ws, es := NodesOf(f, o, lines, n - 1), ErrorsOf(f, o, lines, n - 1);
      forall i | 0 <= i < |ws| ensures ws[i].lineNo < n {
        NodeComesFrom(f, o, lines, n - 1, i);
      }
      forall i | 0 <= i < |es| ensures es[i].lineNo < n {
        ErrorComesFrom(f, o, lines, n - 1, i);
      }
    }
  }

  // ---------------------------------------------------------------------------
  // Counters
  // ---------------------------------------------------------------------------

  function Total(m: map<Protocol, nat>): nat {
    Count(m, VLESS) + Count(m, VMESS) + Count(m, SHADOWSOCKS) + Count(m, TROJAN) + Count(m, HYSTERIA2)
        + Count(m, SOCKS5)
    + Count(m, OTHER)
  }

  lemma CountNote(m: map<Protocol, nat>, p: Protocol, q: Protocol)
    ensures Count(m[p := Count(m, p) + 1], q) == Count(m, q) + (if q == p then 1 else 0)
  {
  }

  lemma TotalNote(m: map<Protocol, nat>, p: Protocol)
    ensures Total(m[p := Count(m, p) + 1]) == Total(m) + 1
  {
    CountNote(m, p, VLESS); CountNote(m, p, VMESS); CountNote(m, p, SHADOWSOCKS); CountNote(m, p, TROJAN);
    CountNote(m, p, HYSTERIA2); CountNote(m, p, SOCKS5); CountNote(m, p, OTHER);
    hide Count;
  }

  lemma {:induction false} TallyTotal(nodes: seq<IngestedNode>)
    ensures Total(Tally(nodes)) == |nodes|
  {
    if nodes != [] {
      TallyTotal(nodes[..|nodes| - 1]);
      TotalNote(Tally(nodes[..|nodes| - 1]), nodes[|nodes| - 1].node.protocol);
    }
  }

  lemma {:induction false} LinesAddUp(f: LineFacts, o: SourceOrigin, lines: seq<string>, n: nat)
    requires n <= |lines|
    ensures n == |NodesOf(f, o, lines, n)| + |ErrorsOf(f, o, lines, n)| + BlanksOf(f, lines, n)
  {
    hide Verdict;
    if n > 0 {
      LinesAddUp(f, o, lines, n - 1);
    }
  }

  /** Seen is parsed plus rejected plus blank, and the per-protocol counts add up to the nodes. */
  lemma CountersAgree(f: LineFacts, o: SourceOrigin, lines: seq<string>)
    ensures var r := Ingested(f, o, lines);
            && r.stats.seen == |lines| == r.stats.parsed + r.stats.rejected + BlanksOf(f, lines, |lines|)
            && |r.nodes| == r.stats.parsed == Total(r.stats.byProtocol)
            && |r.errors| == r.stats.rejected
  {
    LinesAddUp(f, o, lines, |lines|);
    TallyTotal(NodesOf(f, o, lines, |lines|));
  }

  // ---------------------------------------------------------------------------
  // Merging
  // ---------------------------------------------------------------------------

  function MovedNodes(ws: seq<IngestedNode>, offset: int): (r: seq<IngestedNode>)
    ensures |r| == |ws| && forall k | 0 <= k < |r| :: r[k] == ws[k].(lineNo := ws[k].lineNo + offset)
  {
    seq(|ws|, k requires 0 <= k < |ws| => ws[k].(lineNo := ws[k].lineNo + offset))
  }

  function MovedErrors(es: seq<IngestError>, offset: int): (r: seq<IngestError>)
    ensures |r| == |es| && forall k | 0 <= k < |r| :: r[k] == es[k].(lineNo := es[k].lineNo + offset)
  {
    seq(|es|, k requires 0 <= k < |es| => es[k].(lineNo := es[k].lineNo + offset))
  }

  function SumCounts(a: map<Protocol, nat>, b: map<Protocol, nat>): map<Protocol, nat> {
    map p | p in a.Keys + b.Keys :: Count(a, p) + Count(b, p)
  }

  function MergedOrigin(a: SourceOrigin, b: SourceOrigin): SourceOrigin {
    if a.name != b.name then SourceOrigin(a.name + "+" + b.name, a.kind, "") else a
  }

  /** `merged`: the second result follows the first, its lines renumbered. */
  function Merged(a: IngestResult, b: IngestResult): IngestResult {
    IngestResult(MergedOrigin(a.origin, b.origin), a.nodes + MovedNodes(b.nodes, a.stats.seen),
                 a.errors + MovedErrors(b.errors, a.stats.seen),
      IngestStats(a.stats.seen + b.stats.seen, a.stats.parsed + b.stats.parsed, a.stats.rejected + b.stats.rejected,
                  SumCounts(a.stats.byProtocol, b.stats.byProtocol)))
  }

  /** The summing loop over the second result's counts. */
  method AddCounts(a: map<Protocol, nat>, b: map<Protocol, nat>) returns (m: map<Protocol, nat>)
    ensures m == SumCounts(a, b)
  {
    hide Count, PartlyAdded, SumCounts;
    m := a;
    var left := b.Keys;
    NothingAdded(a, b);
    while left != {}
      invariant left <= b.Keys
      invariant PartlyAdded(a, b, m, left)
      decreases |left|
    {
      var p :| p in left;
      AddOne(a, b, m, left, p);
      m := m[p := Count(m, p) + b[p]];
      left := left - {p};
    }
    AllAdded(a, b, m);
  }

  /** The counts of `b` outside `left` have been added to those of `a`. */
  ghost predicate PartlyAdded(a: map<Protocol, nat>, b: map<Protocol, nat>, m: map<Protocol, nat>,
                              left: set<Protocol>) {
    && m.Keys == a.Keys + (b.Keys - left)
    && forall p | p in m :: m[p] == Count(a, p) + (if p in left then 0 else Count(b, p))
  }

  lemma AllAdded(a: map<Protocol, nat>, b: map<Protocol, nat>, m: map<Protocol, nat>)
    requires PartlyAdded(a, b, m, {})
    ensures m == SumCounts(a, b)
  {
    var r := SumCounts(a, b);
    assert m.Keys == r.Keys;
    assert forall p | p in m :: m[p] == r[p];
  }

  lemma NothingAdded(a: map<Protocol, nat>, b: map<Protocol, nat>)
    ensures PartlyAdded(a, b, a, b.Keys)
  {
    assert b.Keys - b.Keys == {};
  }

  lemma AddOne(a: map<Protocol, nat>, b: map<Protocol, nat>, m: map<Protocol, nat>, left: set<Protocol>, p: Protocol)
    requires PartlyAdded(a, b, m, left) && left <= b.Keys && p in left
    ensures PartlyAdded(a, b, m[p := Count(m, p) + b[p]], left - {p})
  {
    var m' := m[p := Count(m, p) + b[p]];
    assert m'.Keys == a.Keys + (b.Keys - (left - {p}));
    assert p in m <==> p in a;
  }

  method Merge(a: IngestResult, b: IngestResult) returns (r: IngestResult)
    ensures r == Merged(a, b)
  {
    var counts := AddCounts(a.stats.byProtocol, b.stats.byProtocol);
    r := IngestResult(MergedOrigin(a.origin, b.origin),
      a.nodes + MovedNodes(b.nodes, a.stats.seen), a.errors + MovedErrors(b.errors, a.stats.seen),
      IngestStats(a.stats.seen + b.stats.seen, a.stats.parsed + b.stats.parsed, a.stats.rejected + b.stats.rejected,
                  counts));
  }

  /** A merged result keeps both lists in order, the second one renumbered after the lines of the first, and adds up. */
  lemma MergeSpelled(a: IngestResult, b: IngestResult)
    ensures var r := Merged(a, b);
            && r.origin.kind == a.origin.kind
            && (if a.origin.name == b.origin.name then r.origin == a.origin
                else r.origin.name == a.origin.name + "+" + b.origin.name && r.origin.location == "")
            && r.nodes[..|a.nodes|] == a.nodes && |r.nodes| == |a.nodes| + |b.nodes|
            && (forall i | 0 <= i < |b.nodes| ::
                  var w := r.nodes[|a.nodes| + i];
                  && w.node == b.nodes[i].node && w.origin == b.nodes[i].origin && w.lineHash == b.nodes[i].lineHash
                  && w.lineNo == b.nodes[i].lineNo + a.stats.seen)
            && r.errors[..|a.errors|] == a.errors && |r.errors| == |a.errors| + |b.errors|
            && (forall i | 0 <= i < |b.errors| ::
                  var e := r.errors[|a.errors| + i];
                  && e.originName == b.errors[i].originName && e.reason == b.errors[i].reason
                  && e.lineNo == b.errors[i].lineNo + a.stats.seen)
            && r.stats.seen == a.stats.seen + b.stats.seen && r.stats.parsed == a.stats.parsed + b.stats.parsed
            && r.stats.rejected == a.stats.rejected + b.stats.rejected
            && forall p :: Count(r.stats.byProtocol, p) == Count(a.stats.byProtocol, p) + Count(b.stats.byProtocol, p)
  {
  }

  lemma MovedJoin(ws: seq<IngestedNode>, vs: seq<IngestedNode>, offset: int)
    ensures MovedNodes(ws + vs, offset) == MovedNodes(ws, offset) + MovedNodes(vs, offset)
  {
  }

  /** The node of one line, if it has one. */
  function LineNode(f: LineFacts, o: SourceOrigin, raw: string, lineNo: int): seq<IngestedNode> {
    match Verdict(f, raw)
    case Parsed(node) => [IngestedNode(node, o, lineNo, f.hash(Strip(raw, f.space)))]
    case _ => []
  }

  lemma LastLine(f: LineFacts, o: SourceOrigin, lines: seq<string>, n: nat)
    requires 0 < n <= |lines|
    ensures NodesOf(f, o, lines, n) == NodesOf(f, o, lines, n - 1) + LineNode(f, o, lines[n - 1], n)
  {
    hide Verdict;
  }

  lemma LineMoved(f: LineFacts, o: SourceOrigin, raw: string, lineNo: int, offset: int)
    ensures MovedNodes(LineNode(f, o, raw, lineNo), offset) == LineNode(f, o, raw, lineNo + offset)
  {
    hide Verdict;
  }

  lemma {:induction false} NodesSplit(f: LineFacts, o: SourceOrigin, a: seq<string>, b: seq<string>, n: nat)
    requires n <= |b|
    ensures NodesOf(f, o, a + b, |a| + n) == NodesOf(f, o, a, |a|) + MovedNodes(NodesOf(f, o, b, n), |a|)
  {
    if n == 0 {
      NodesPrefix(f, o, a, b, |a|);
    } else {
      NodesSplit(f, o, a, b, n - 1);
      LastLine(f, o, b, n);
      LastLine(f, o, a + b, |a| + n);
      LineMoved(f, o, b[n - 1], n, |a|);
      MovedJoin(NodesOf(f, o, b, n - 1), LineNode(f, o, b[n - 1], n), |a|);
      hide NodesOf, LineNode, MovedNodes;
      assert (a + b)[|a| + n - 1] == b[n - 1];
    }
  }

  lemma {:induction false} ErrorsSplit(f: LineFacts, o: SourceOrigin, a: seq<string>, b: seq<string>, n: nat)
    requires n <= |b|
    ensures ErrorsOf(f, o, a + b, |a| + n) == ErrorsOf(f, o, a, |a|) + MovedErrors(ErrorsOf(f, o, b, n), |a|)
  {
    hide Verdict;
    if n == 0 {
      NodesPrefix(f, o, a, b, |a|);
    } else {
      ErrorsSplit(f, o, a, b, n - 1);
      assert (a + b)[|a| + n - 1] == b[n - 1];
    }
  }

  lemma {:induction false} NodesPrefix(f: LineFacts, o: SourceOrigin, a: seq<string>, b: seq<string>, n: nat)
    requires n <= |a|
    ensures NodesOf(f, o, a + b, n) == NodesOf(f, o, a, n) && ErrorsOf(f, o, a + b, n) == ErrorsOf(f, o, a, n)
  {
    hide Verdict;
    if n > 0 {
      NodesPrefix(f, o, a, b, n - 1);
    }
  }

  lemma {:induction false} TallyAppend(a: seq<IngestedNode>, b: seq<IngestedNode>)
    ensures Tally(a + b) == SumCounts(Tally(a), Tally(b))
  {
    if b == [] {
      assert a + b == a;
      assert Tally(a) == SumCounts(Tally(a), map[]);
    } else {
      var front, w := b[..|b| - 1], b[|b| - 1];
      TallyAppend(a, front);
      LastApart(a, b);
      TallySnoc(a + front, w);
      TallySnoc(front, w);
      hide Tally, SumCounts;
      SumNote(Tally(a), Tally(front), w.node.protocol);
    }
  }

  lemma LastApart<T>(a: seq<T>, b: seq<T>)
    requires b != []
    ensures a + b == a + b[..|b| - 1] + [b[|b| - 1]] && b == b[..|b| - 1] + [b[|b| - 1]]
  {
  }

  lemma SumNote(a: map<Protocol, nat>, b: map<Protocol, nat>, p: Protocol)
    ensures SumCounts(a, b[p := Count(b, p) + 1]) == SumCounts(a, b)[p := Count(SumCounts(a, b), p) + 1]
  {
    var l, r := SumCounts(a, b[p := Count(b, p) + 1]), SumCounts(a, b)[p := Count(SumCounts(a, b), p) + 1];
    assert l.Keys == r.Keys;
    assert forall q | q in l :: l[q] == r[q];
  }

  lemma {:induction false} TallyIgnoresLines(ws: seq<IngestedNode>, offset: int)
    ensures Tally(MovedNodes(ws, offset)) == Tally(ws)
  {
    if ws != [] {
      var front := ws[..|ws| - 1];
      TallyIgnoresLines(front, offset);
      assert MovedNodes(ws, offset)[..|ws| - 1] == MovedNodes(front, offset);
    }
  }

  /** Ingest is a homomorphism: cutting the lines anywhere and merging gives the whole. */
  lemma IngestSplits(f: LineFacts, o: SourceOrigin, a: seq<string>, b: seq<string>)
    ensures Merged(Ingested(f, o, a), Ingested(f, o, b)) == Ingested(f, o, a + b)
  {
    hide Tally, NodesOf, ErrorsOf, SumCounts;
    NodesSplit(f, o, a, b, |b|);
    ErrorsSplit(f, o, a, b, |b|);
    TallyIgnoresLines(NodesOf(f, o, b, |b|), |a|);
    TallyAppend(NodesOf(f, o, a, |a|), MovedNodes(NodesOf(f, o, b, |b|), |a|));
  }

  lemma NodesAssociate(a: seq<IngestedNode>, b: seq<IngestedNode>, c: seq<IngestedNode>, x: int, y: int)
    ensures a + MovedNodes(b, x) + MovedNodes(c, x + y) == a + MovedNodes(b + MovedNodes(c, y), x)
  {
    var l, r := MovedNodes(b, x) + MovedNodes(c, x + y), MovedNodes(b + MovedNodes(c, y), x);
    assert l == r;
  }

  lemma ErrorsAssociate(a: seq<IngestError>, b: seq<IngestError>, c: seq<IngestError>, x: int, y: int)
    ensures a + MovedErrors(b, x) + MovedErrors(c, x + y) == a + MovedErrors(b + MovedErrors(c, y), x)
  {
    var l, r := MovedErrors(b, x) + MovedErrors(c, x + y), MovedErrors(b + MovedErrors(c, y), x);
    assert l == r;
  }

  /** Merging is associative on nodes, errors and every counter. */
  lemma MergeAssociates(a: IngestResult, b: IngestResult, c: IngestResult)
    ensures Merged(Merged(a, b), c).nodes == Merged(a, Merged(b, c)).nodes
    ensures Merged(Merged(a, b), c).errors == Merged(a, Merged(b, c)).errors
    ensures Merged(Merged(a, b), c).stats == Merged(a, Merged(b, c)).stats
  {
    hide MovedNodes, MovedErrors, SumCounts, MergedOrigin;
    var x, y := a.stats.seen, b.stats.seen;
    NodesAssociate(a.nodes, b.nodes, c.nodes, x, y);
    ErrorsAssociate(a.errors, b.errors, c.errors, x, y);
    SumAssociates(a.stats.byProtocol, b.stats.byProtocol, c.stats.byProtocol);
  }

  lemma SumAssociates(a: map<Protocol, nat>, b: map<Protocol, nat>, c: map<Protocol, nat>)
    ensures SumCounts(SumCounts(a, b), c) == SumCounts(a, SumCounts(b, c))
  {
    var l, r := SumCounts(SumCounts(a, b), c), SumCounts(a, SumCounts(b, c));
    assert l.Keys == r.Keys;
    forall p | p in l ensures l[p] == r[p] {
      assert l[p] == Count(SumCounts(a, b), p) + Count(c, p);
    }
  }
}
