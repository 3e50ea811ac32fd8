/** `_run_sources`: naming the sources of a run, ingesting each, and merging what they gave. */
module Sources {
  import opened Common
  import opened Model
  import opened Text
  import opened Sorting
  import opened Ingest
  import opened Audit
  import opened Verdicts
  import opened Conservation

  /** What a source turns out to be: an exception, an unreadable source, or a text. */
  datatype Feed = Crashed | Unreadable(reason: string, counted: bool) | Read(text: string)

  /** `fallback` is the start of its url or path, or "raw". */
  datatype Source = Source(name: string, fallback: string, kind: SourceKind, location: string, feed: Feed)

  datatype SourceReport = SourceReport(name: string, ok: bool, input: nat, output: nat, dropped: nat)

  // ---------------------------------------------------------------------------
  // Names
  // ---------------------------------------------------------------------------

  function LabelOf(space: char -> bool, s: Source, index: nat): string {
    var l := Strip(if s.name != "" then s.name else s.fallback, space);
    if l != "" then l else "source" + Decimal(index)
  }

  function Labels(space: char -> bool, sources: seq<Source>): (r: seq<string>)
    ensures |r| == |sources| && forall i | 0 <= i < |r| :: r[i] == LabelOf(space, sources[i], i + 1)
  {
    seq(|sources|, i requires 0 <= i < |sources| => LabelOf(space, sources[i], i + 1))
  }

  /** Which occurrence of its label source `i` is, counting from 1. */
  function Occurrence(labels: seq<string>, i: nat): nat
    requires i < |labels|
  {
    multiset(labels[..i + 1])[labels[i]]
  }

  function Numbered(l: string, c: nat): string {
    if c == 1 then l else l + "#" + Decimal(c)
  }

  /** The name a source gets: its label, with `#2`, `#3`, ... for later occurrences. */
  function NameAt(labels: seq<string>, i: nat): string
    requires i < |labels|
  {
    Numbered(labels[i], Occurrence(labels, i))
  }

  /** A source is called by its name, or else by its fallback, stripped, or else by its number. */
  lemma LabelSpelled(space: char -> bool, s: Source, index: nat)
    ensures var given := Strip(if s.name != "" then s.name else s.fallback, space);
            LabelOf(space, s, index) == if given == "" then "source" + Decimal(index) else given
  {
    hide Strip;
  }

  /** The first source of a label keeps it; the `k`-th one has `#k` appended. */
  lemma NameSpelled(labels: seq<string>, i: nat)
    requires i < |labels|
    ensures labels[i] !in labels[..i] ==> NameAt(labels, i) == labels[i]
    ensures labels[i] in labels[..i] ==>
              NameAt(labels, i) == labels[i] + "#" + Decimal(multiset(labels[..i])[labels[i]] + 1)
  {
    assert labels[..i + 1] == labels[..i] + [labels[i]];
  }

  ghost predicate UniqueNames(labels: seq<string>) {
    forall i, j | 0 <= i < j < |labels| :: NameAt(labels, i) != NameAt(labels, j)
  }

  /** No label already looks like the name of a repeated other label. */
  ghost predicate NoClash(labels: seq<string>) {
    forall i, j, k: nat | 0 <= i < |labels| && 0 <= j < |labels| && 2 <= k <= multiset(labels)[labels[j]] ::
      labels[i] != Numbered(labels[j], k)
  }

  lemma Prefixes(labels: seq<string>, i: nat)
    requires i < |labels|
    ensures multiset(labels[..i + 1]) == multiset(labels[..i]) + multiset{labels[i]}
  {
    assert labels[..i + 1] == labels[..i] + [labels[i]];
  }

  /** Counts only grow along the list. */
  lemma {:induction false} CountsGrow(labels: seq<string>, i: nat, j: nat, l: string)
    requires i <= j <= |labels|
    ensures multiset(labels[..i])[l] <= multiset(labels[..j])[l]
  {
    if i < j {
      CountsGrow(labels, i, j - 1, l);
      Prefixes(labels, j - 1);
    }
  }

  lemma OccurrenceRange(labels: seq<string>, i: nat)
    requires i < |labels|
    ensures 1 <= Occurrence(labels, i) <= multiset(labels)[labels[i]]
  {
    Prefixes(labels, i);
    CountsGrow(labels, i + 1, |labels|, labels[i]);
    assert labels[..|labels|] == labels;
  }

  /** Equal labels have different occurrence numbers. */
  lemma OccurrencesDiffer(labels: seq<string>, i: nat, j: nat)
    requires i < j < |labels| && labels[i] == labels[j]
    ensures Occurrence(labels, i) < Occurrence(labels, j)
  {
    CountsGrow(labels, i + 1, j, labels[i]);
    Prefixes(labels, j);
  }

  /** Every number up to the multiplicity of a label is the occurrence number of some source. */
  lemma {:induction false} OccurrenceExists(labels: seq<string>, n: nat, l: string, k: nat) returns (p: nat)
    requires n <= |labels| && 1 <= k <= multiset(labels[..n])[l]
    ensures p < n && labels[p] == l && Occurrence(labels, p) == k
  {
    Prefixes(labels, n - 1);
    if k <= multiset(labels[..n - 1])[l] {
      p := OccurrenceExists(labels, n - 1, l, k);
    } else {
      p := n - 1;
    }
  }

  lemma NumbersApart(l: string, c: nat, m: string, d: nat)
    requires c >= 2 && d >= 2 && Numbered(l, c) == Numbered(m, d)
    ensures l == m && c == d
  {
    var s := Numbered(l, c);
    var x, y := Decimal(c), Decimal(d);
    assert s[|l|] == '#' && s[|m|] == '#';
    assert forall k | |l| < k < |s| :: IsDigit(s[k]) by { assert forall k | |l| < k < |s| :: s[k] == x[k - |l| - 1]; }
    assert forall k | |m| < k < |s| :: IsDigit(s[k]) by { assert forall k | |m| < k < |s| :: s[k] == y[k - |m| - 1]; }
    assert |l| == |m|;
    assert s[..|l|] == l && s[..|m|] == m && s[|l| + 1..] == x && s[|m| + 1..] == y;
    DecimalReads(c);
    DecimalReads(d);
  }

  lemma ClashMeets(labels: seq<string>, i: nat, j: nat, k: nat)
    requires i < |labels| && j < |labels| && 2 <= k <= multiset(labels)[labels[j]]
             && labels[i] == Numbered(labels[j], k)
    ensures !UniqueNames(labels)
  {
    assert labels[..|labels|] == labels;
    var p := OccurrenceExists(labels, |labels|, labels[j], k);
    OccurrenceRange(labels, i);
    var q := OccurrenceExists(labels, |labels|, labels[i], 1);
    assert NameAt(labels, p) == NameAt(labels, q) == labels[i];
    assert |labels[i]| > |labels[j]|;
  }

  /** Source names are unique exactly when no label already looks like `label#k` of a repeated label. */
  lemma NamesUniqueExactly(labels: seq<string>)
    ensures UniqueNames(labels) <==> NoClash(labels)
  {
    if NoClash(labels) {
      forall i, j | 0 <= i < j < |labels| ensures NameAt(labels, i) != NameAt(labels, j) {
        OccurrenceRange(labels, i);
        OccurrenceRange(labels, j);
        var c, d := Occurrence(labels, i), Occurrence(labels, j);
        if NameAt(labels, i) == NameAt(labels, j) {
          if labels[i] == labels[j] {
            OccurrencesDiffer(labels, i, j);
          }
          if c >= 2 && d >= 2 {
            NumbersApart(labels[i], c, labels[j], d);
          }
        }
      }
    } else {
      var i, j, k: nat :| 0 <= i < |labels| && 0 <= j < |labels| && 2 <= k <= multiset(labels)[labels[j]]
                          && labels[i] == Numbered(labels[j], k);
      ClashMeets(labels, i, j, k);
    }
  }

  // ---------------------------------------------------------------------------
  // Ingesting
  // ---------------------------------------------------------------------------

  function OriginOf(s: Source, name: string): SourceOrigin {
    SourceOrigin(name, s.kind, s.location)
  }

  function ResultOf(f: LineFacts, s: Source, name: string): Option<IngestResult> {
    match s.feed
    case Crashed => None
    case Unreadable(reason, counted) =>
      Some(IngestResult(OriginOf(s, name), [], [IngestError(name, 0, reason)],
                        IngestStats(0, 0, if counted then 1 else 0, map[])))
    case Read(text) => Some(Ingested(f, OriginOf(s, name), LinesIn(text)))
  }

  /** The results of the first `n` sources, merged in order. */
  function MergedFrom(f: LineFacts, sources: seq<Source>, labels: seq<string>, n: nat): Option<IngestResult>
    requires n <= |sources| == |labels|
  {
    if n == 0 then None
    else
      var before := MergedFrom(f, sources, labels, n - 1);
      var next := ResultOf(f, sources[n - 1], NameAt(labels, n - 1));
      if before.None? then next else if next.None? then before else Some(Merged(before.value, next.value))
  }

  const NOTHING := IngestResult(SourceOrigin("pipeline", RawText, ""), [], [], EMPTY_STATS)

  function AllMerged(f: LineFacts, sources: seq<Source>): IngestResult {
    match MergedFrom(f, sources, Labels(f.space, sources), |sources|)
    case None => NOTHING
    case Some(r) => r
  }

  lemma {:induction false} NoneMerged(f: LineFacts, sources: seq<Source>, n: nat)
    requires n <= |sources| && forall s | s in sources :: s.feed.Crashed?
    ensures MergedFrom(f, sources, Labels(f.space, sources), n) == None
  {
    hide Labels, NameAt;
    if n > 0 {
      NoneMerged(f, sources, n - 1);
    }
  }

  /** A run none of whose sources can be opened has read nothing. */
  lemma NothingRead(f: LineFacts, sources: seq<Source>)
    requires forall s | s in sources :: s.feed.Crashed?
    ensures AllMerged(f, sources) == IngestResult(SourceOrigin("pipeline", RawText, ""), [], [],
                                                  IngestStats(0, 0, 0, map[]))
  {
    NoneMerged(f, sources, |sources|);
    hide MergedFrom, Labels;
  }

  function CountIn(used: map<string, nat>, l: string): nat {
    if l in used then used[l] else 0
  }

  /** The dictionary of names holds how often each label occurred. */
  ghost predicate Counted(used: map<string, nat>, labels: seq<string>, i: nat)
    requires i <= |labels|
  {
    forall l :: CountIn(used, l) == multiset(labels[..i])[l]
  }

  lemma CountedNext(used: map<string, nat>, labels: seq<string>, i: nat)
    requires i < |labels| && Counted(used, labels, i)
    ensures CountIn(used, labels[i]) + 1 == Occurrence(labels, i)
    ensures Counted(used[labels[i] := CountIn(used, labels[i]) + 1], labels, i + 1)
  {
    Prefixes(labels, i);
  }

  /** `_run_sources`: a broken source is recorded and skipped; names are numbered as they repeat. */
  method RunSources(f: LineFacts, sources: seq<Source>) returns (merged: IngestResult, reports: seq<SourceReport>)
    ensures merged == AllMerged(f, sources)
    ensures |reports| == |sources|
    ensures forall i | 0 <= i < |reports| :: reports[i].name == NameAt(Labels(f.space, sources), i)
    ensures forall i | 0 <= i < |reports| :: ReportsOn(f, sources[i], NameAt(Labels(f.space, sources), i), reports[i])
  {
    hide LabelOf, Merged, Counted, Occurrence, CountIn, Numbered, NameAt, ReportFor, ResultOf, ReportsOn;
    ghost var labels := Labels(f.space, sources);
    var result: Option<IngestResult> := None;
    var used: map<string, nat> := map[];
    reports := [];
    NoneCounted(labels);
    for i := 0 to |sources|
      invariant result == MergedFrom(f, sources, labels, i)
      invariant Counted(used, labels, i)
      invariant |reports| == i && forall k | 0 <= k < i :: reports[k].name == NameAt(labels, k)
      invariant forall k | 0 <= k < i :: ReportsOn(f, sources[k], NameAt(labels, k), reports[k])
    {
      var source := sources[i];
      var l := LabelOf(f.space, source, i + 1);
      CountedNext(used, labels, i);
      var count := CountIn(used, l) + 1;
      used := used[l := count];
      var name := Numbered(l, count);
      NameIs(labels, i);
      var one := IngestSource(f, source, name);
      ReportSpelled(f, source, name);
      reports := reports + [ReportFor(name, one)];
      if one.Some? && result.Some? {
        var both := Ingest.Merge(result.value, one.value);
        result := Some(both);
      } else if one.Some? {
        result := one;
      }
    }
    merged := if result.None? then NOTHING else result.value;
  }

  function ReportFor(name: string, r: Option<IngestResult>): SourceReport {
    match r
    case None => SourceReport(name, false, 0, 0, 0)
    case Some(one) => SourceReport(name, one.nodes != [], one.stats.seen, |one.nodes|, one.stats.rejected)
  }

  lemma NameIs(labels: seq<string>, i: nat)
    requires i < |labels|
    ensures NameAt(labels, i) == Numbered(labels[i], Occurrence(labels, i))
  {
  }

  /** A report in terms of what the source turned out to be. */
  ghost predicate ReportsOn(f: LineFacts, s: Source, name: string, r: SourceReport) {
    && r.name == name
    && (s.feed.Crashed? ==> !r.ok && r.input == r.output == r.dropped == 0)
    && (s.feed.Unreadable? ==> !r.ok && r.input == r.output == 0 && r.dropped == if s.feed.counted then 1 else 0)
    && (s.feed.Read? ==>
          var lines, o := LinesIn(s.feed.text), SourceOrigin(name, s.kind, s.location);
          && r.input == |lines| && r.output == |NodesOf(f, o, lines, |lines|)|
          && r.dropped == |ErrorsOf(f, o, lines, |lines|)| && (r.ok <==> r.output > 0))
  }

  lemma ReportSpelled(f: LineFacts, s: Source, name: string)
    ensures ReportFor(name, ResultOf(f, s, name)).name == name
    ensures ReportsOn(f, s, name, ReportFor(name, ResultOf(f, s, name)))
  {
    hide NodesOf, ErrorsOf, LinesIn, Tally;
  }

  lemma NoneCounted(labels: seq<string>)
    ensures Counted(map[], labels, 0)
  {
  }

  method IngestSource(f: LineFacts, s: Source, name: string) returns (r: Option<IngestResult>)
    ensures r == ResultOf(f, s, name)
  {
    match s.feed
    case Crashed => return None;
    case Unreadable(reason, counted) =>
      return Some(IngestResult(OriginOf(s, name), [], [IngestError(name, 0, reason)],
                               IngestStats(0, 0, if counted then 1 else 0, map[])));
    case Read(text) =>
      var got := IngestText(f, LinesIn(text), OriginOf(s, name));
      return Some(got);
  }

  // ---------------------------------------------------------------------------
  // Lines of a run
  // ---------------------------------------------------------------------------

  /** The parser records the line it read, stripped. */
  ghost predicate Faithful(f: LineFacts) {
    forall line :: f.parse(line).Some? ==> f.parse(line).value.rawUrl == Strip(line, f.space)
  }

  /** And it measures nothing. */
  ghost predicate MeasuresNothing(f: LineFacts) {
    forall line :: f.parse(line).Some? ==> Unmeasured(f.parse(line).value)
  }

  /** All lines of a result come from sources named among `names[..n]`. */
  ghost predicate FromFirst(r: IngestResult, labels: seq<string>, n: nat)
    requires n <= |labels|
  {
    && (forall w | w in r.nodes :: NamedBefore(w.origin.name, labels, n))
    && (forall e | e in r.errors :: NamedBefore(e.originName, labels, n))
  }

  ghost predicate NamedBefore(name: string, labels: seq<string>, n: nat)
    requires n <= |labels|
  {
    exists k :: 0 <= k < n && NameAt(labels, k) == name
  }

  ghost predicate Named(r: IngestResult, name: string) {
    (forall w | w in r.nodes :: w.origin.name == name) && (forall e | e in r.errors :: e.originName == name)
  }

  ghost predicate Sound(f: LineFacts, r: IngestResult) {
    && UniqueLines(r.errors, r.nodes) && DistinctKeys(r.nodes, NodeKey) && Witnessed(f.parse, r.nodes)
  }

  lemma KeysOfNodes(nodes: seq<IngestedNode>)
    ensures DistinctKeys(nodes, NodeKey) <==> DistinctKeys(Map(nodes, StartRow), RowKey)
  {
    assert forall i | 0 <= i < |nodes| :: RowKey(Map(nodes, StartRow)[i]) == NodeKey(nodes[i]);
  }

  lemma KeysOfErrors(errors: seq<IngestError>)
    ensures DistinctKeys(errors, ErrorKey) <==> DistinctKeys(Map(errors, RejectedRow), RowKey)
  {
    assert forall i | 0 <= i < |errors| :: RowKey(Map(errors, RejectedRow)[i]) == ErrorKey(errors[i]);
  }

  /** What is known of the parsed lines of one text: their source, their verdict, and that numbers tell them apart. */
  ghost predicate ParsedFrom(f: LineFacts, o: SourceOrigin, lines: seq<string>, ws: seq<IngestedNode>) {
    && (forall w | w in ws ::
         w.origin == o && 1 <= w.lineNo <= |lines| && Verdict(f, lines[w.lineNo - 1]) == Parsed(w.node))
    && (forall i, j | 0 <= i < j < |ws| :: ws[i].lineNo < ws[j].lineNo)
  }

  ghost predicate RejectedFrom(f: LineFacts, o: SourceOrigin, lines: seq<string>, es: seq<IngestError>) {
    && (forall e | e in es ::
         e.originName == o.name && 1 <= e.lineNo <= |lines| && Verdict(f, lines[e.lineNo - 1]).Rejected?)
    && (forall i, j | 0 <= i < j < |es| :: es[i].lineNo < es[j].lineNo)
  }

  lemma IngestedParsed(f: LineFacts, o: SourceOrigin, lines: seq<string>)
    ensures ParsedFrom(f, o, lines, NodesOf(f, o, lines, |lines|))
  {
    LinesIncrease(f, o, lines, |lines|);
    hide NodesOf, ErrorsOf, Verdict;
    var ws := NodesOf(f, o, lines, |lines|);
    forall w | w in ws ensures w.origin == o && 1 <= w.lineNo <= |lines|
        && Verdict(f, lines[w.lineNo - 1]) == Parsed(w.node) {
      var i :| 0 <= i < |ws| && ws[i] == w;
      NodeComesFrom(f, o, lines, |lines|, i);
    }
  }

  lemma IngestedRejected(f: LineFacts, o: SourceOrigin, lines: seq<string>)
    ensures RejectedFrom(f, o, lines, ErrorsOf(f, o, lines, |lines|))
  {
    LinesIncrease(f, o, lines, |lines|);
    hide NodesOf, ErrorsOf, Verdict;
    var es := ErrorsOf(f, o, lines, |lines|);
    forall e | e in es ensures e.originName == o.name && 1 <= e.lineNo <= |lines|
        && Verdict(f, lines[e.lineNo - 1]).Rejected? {
      var i :| 0 <= i < |es| && es[i] == e;
      ErrorComesFrom(f, o, lines, |lines|, i);
    }
  }

  lemma TextSound(f: LineFacts, o: SourceOrigin, lines: seq<string>, ws: seq<IngestedNode>, es: seq<IngestError>)
    requires Faithful(f) && ParsedFrom(f, o, lines, ws) && RejectedFrom(f, o, lines, es)
    ensures UniqueLines(es, ws) && DistinctKeys(ws, NodeKey) && Witnessed(f.parse, ws)
  {
    KeysOfNodes(ws);
    KeysOfErrors(es);
    hide Verdict, Faithful;
    forall w | w in ws ensures f.parse(w.node.rawUrl) == Some(w.node) {
      ParsedWitness(f, lines[w.lineNo - 1], w.node);
    }
  }

  /** One text source: line numbers keep its lines apart, and each node is witnessed by its line. */
  lemma IngestedSound(f: LineFacts, o: SourceOrigin, lines: seq<string>)
    requires Faithful(f)
    ensures Sound(f, Ingested(f, o, lines)) && Named(Ingested(f, o, lines), o.name)
  {
    IngestedParsed(f, o, lines);
    IngestedRejected(f, o, lines);
    hide NodesOf, ErrorsOf, Verdict, UniqueLines, Witnessed, DistinctKeys;
    TextSound(f, o, lines, NodesOf(f, o, lines, |lines|), ErrorsOf(f, o, lines, |lines|));
  }

  lemma ParsedWitness(f: LineFacts, raw: string, n: Node)
    requires Faithful(f) && Verdict(f, raw) == Parsed(n)
    ensures f.parse(n.rawUrl) == Some(n)
  {
    var line := Strip(raw, f.space);
    StripEnds(raw, f.space);
    StripFix(line, f.space);
  }

  lemma ResultSound(f: LineFacts, s: Source, name: string)
    requires Faithful(f) && ResultOf(f, s, name).Some?
    ensures Sound(f, ResultOf(f, s, name).value) && Named(ResultOf(f, s, name).value, name)
  {
    match s.feed
    case Read(text) => IngestedSound(f, OriginOf(s, name), LinesIn(text));
    case Unreadable(_, _) =>
  }

  /** Merging keeps lines apart when the second result bears a new name. */
  lemma MergeSound(f: LineFacts, a: IngestResult, b: IngestResult, labels: seq<string>, n: nat)
    requires n < |labels| && UniqueNames(labels)
    requires Sound(f, a) && FromFirst(a, labels, n) && Sound(f, b) && Named(b, NameAt(labels, n))
    ensures Sound(f, Merged(a, b)) && FromFirst(Merged(a, b), labels, n + 1)
  {
    hide NameAt, Occurrence;
    var x := a.stats.seen;
    var moved, late := MovedNodes(b.nodes, x), MovedErrors(b.errors, x);
    assert NamedBefore(NameAt(labels, n), labels, n + 1) by { assert n < n + 1; }
    forall name | NamedBefore(name, labels, n) ensures name != NameAt(labels, n) && NamedBefore(name, labels, n + 1) {
      var k :| 0 <= k < n && NameAt(labels, k) == name;
      assert k < n + 1;
    }
    MovedSound(f, b, x);
    MovedNamed(b, x, NameAt(labels, n));
    JoinSound(f, a.errors, a.nodes, late, moved, NameAt(labels, n));
    assert FromFirst(Merged(a, b), labels, n + 1) by { hide NamedBefore; }
  }

  lemma MovedNodesSound(f: LineFacts, ws: seq<IngestedNode>, x: int)
    requires DistinctKeys(ws, NodeKey) && Witnessed(f.parse, ws)
    ensures DistinctKeys(MovedNodes(ws, x), NodeKey) && Witnessed(f.parse, MovedNodes(ws, x))
  {
    var moved := MovedNodes(ws, x);
    forall i, j | 0 <= i < j < |moved| ensures NodeKey(moved[i]) != NodeKey(moved[j]) {
      assert NodeKey(ws[i]) != NodeKey(ws[j]);
    }
    forall w | w in moved ensures f.parse(w.node.rawUrl) == Some(w.node) {
      var j :| 0 <= j < |moved| && moved[j] == w;
      assert ws[j] in ws;
    }
  }

  lemma MovedErrorsSound(es: seq<IngestError>, x: int)
    requires DistinctKeys(es, ErrorKey)
    ensures DistinctKeys(MovedErrors(es, x), ErrorKey)
  {
    var moved := MovedErrors(es, x);
    forall i, j | 0 <= i < j < |moved| ensures ErrorKey(moved[i]) != ErrorKey(moved[j]) {
      assert ErrorKey(es[i]) != ErrorKey(es[j]);
    }
  }

  lemma MovedApart(b: IngestResult, x: int)
    requires forall e, w | e in b.errors && w in b.nodes :: (e.originName, e.lineNo) != NodeKey(w)
    ensures forall e, w | e in MovedErrors(b.errors, x) && w in MovedNodes(b.nodes, x) ::
              (e.originName, e.lineNo) != NodeKey(w)
  {
    var ws, es := MovedNodes(b.nodes, x), MovedErrors(b.errors, x);
    forall e, w | e in es && w in ws ensures (e.originName, e.lineNo) != NodeKey(w) {
      var i :| 0 <= i < |es| && es[i] == e;
      var j :| 0 <= j < |ws| && ws[j] == w;
      assert b.errors[i] in b.errors && b.nodes[j] in b.nodes;
    }
  }

  lemma MovedSound(f: LineFacts, b: IngestResult, x: int)
    requires Sound(f, b)
    ensures UniqueLines(MovedErrors(b.errors, x), MovedNodes(b.nodes, x)) && Witnessed(f.parse, MovedNodes(b.nodes, x))
  {
    MovedApart(b, x);
    KeysOfNodes(MovedNodes(b.nodes, x));
    KeysOfErrors(MovedErrors(b.errors, x));
    KeysOfErrors(b.errors);
    hide MovedNodes, MovedErrors, DistinctKeys, Witnessed, RejectedRow, StartRow;
    MovedNodesSound(f, b.nodes, x);
    MovedErrorsSound(b.errors, x);
  }

  lemma MovedNamed(b: IngestResult, x: int, name: string)
    requires Named(b, name)
    ensures forall w | w in MovedNodes(b.nodes, x) :: w.origin.name == name
    ensures forall e | e in MovedErrors(b.errors, x) :: e.originName == name
  {
    var ws, es := MovedNodes(b.nodes, x), MovedErrors(b.errors, x);
    forall w | w in ws ensures w.origin.name == name {
      var j :| 0 <= j < |ws| && ws[j] == w;
      assert b.nodes[j] in b.nodes;
    }
    forall e | e in es ensures e.originName == name {
      var i :| 0 <= i < |es| && es[i] == e;
      assert b.errors[i] in b.errors;
    }
  }

  /** Two groups of lines with different source names. */
  lemma JoinSound(f: LineFacts, es: seq<IngestError>, ws: seq<IngestedNode>, es': seq<IngestError>,
                  ws': seq<IngestedNode>, name: string)
    requires UniqueLines(es, ws) && UniqueLines(es', ws') && Witnessed(f.parse, ws) && Witnessed(f.parse, ws')
    requires (forall w | w in ws :: w.origin.name != name) && (forall e | e in es :: e.originName != name)
    requires (forall w | w in ws' :: w.origin.name == name) && (forall e | e in es' :: e.originName == name)
    ensures UniqueLines(es + es', ws + ws') && DistinctKeys(ws + ws', NodeKey) && Witnessed(f.parse, ws + ws')
  {
    KeysOfNodes(ws); KeysOfNodes(ws'); KeysOfNodes(ws + ws');
    KeysOfErrors(es); KeysOfErrors(es'); KeysOfErrors(es + es');
    hide StartRow, RejectedRow;
    DistinctJoin(ws, ws', NodeKey);
    DistinctJoin(es, es', ErrorKey);
  }

  lemma DistinctJoin<X(!new)>(a: seq<X>, b: seq<X>, kx: X -> Key)
    requires DistinctKeys(a, kx) && DistinctKeys(b, kx)
    requires forall x, y | x in a && y in b :: kx(x) != kx(y)
    ensures DistinctKeys(a + b, kx)
  {
    forall i, j | 0 <= i < j < |a + b| ensures kx((a + b)[i]) != kx((a + b)[j]) {
      if i < |a| <= j {
        assert a[i] in a && b[j - |a|] in b;
      }
    }
  }

  lemma {:induction false} MergedSound(f: LineFacts, sources: seq<Source>, labels: seq<string>, n: nat)
    requires n <= |sources| == |labels| && Faithful(f) && UniqueNames(labels)
    ensures var r := MergedFrom(f, sources, labels, n); r.Some? ==> Sound(f, r.value) && FromFirst(r.value, labels, n)
  {
    hide Sound, ResultOf, Merged, NameAt;
    if n > 0 {
      MergedSound(f, sources, labels, n - 1);
      var before, next := MergedFrom(f, sources, labels, n - 1), ResultOf(f, sources[n - 1], NameAt(labels, n - 1));
      if next.Some? {
        ResultSound(f, sources[n - 1], NameAt(labels, n - 1));
        if before.Some? {
          MergeSound(f, before.value, next.value, labels, n - 1);
        } else {
          FirstNamed(next.value, labels, n - 1);
        }
      } else if before.Some? {
        FromFirstMore(before.value, labels, n - 1);
      }
    }
  }

  lemma FirstNamed(r: IngestResult, labels: seq<string>, n: nat)
    requires n < |labels| && Named(r, NameAt(labels, n))
    ensures FromFirst(r, labels, n + 1)
  {
    assert NamedBefore(NameAt(labels, n), labels, n + 1) by { assert n < n + 1; }
  }

  lemma FromFirstMore(r: IngestResult, labels: seq<string>, n: nat)
    requires n < |labels| && FromFirst(r, labels, n)
    ensures FromFirst(r, labels, n + 1)
  {
    forall name | NamedBefore(name, labels, n) ensures NamedBefore(name, labels, n + 1) {
      var k :| 0 <= k < n && NameAt(labels, k) == name;
      assert k < n + 1;
    }
    hide NamedBefore;
  }

  /**
   * Whatever the sources hold, when no label looks like a numbered one the lines of the
   * merged result are pairwise distinguishable and every node is witnessed by its raw line.
   */
  lemma LinesOfRun(f: LineFacts, sources: seq<Source>)
    requires Faithful(f) && NoClash(Labels(f.space, sources))
    ensures Sound(f, AllMerged(f, sources))
  {
    NamesUniqueExactly(Labels(f.space, sources));
    MergedSound(f, sources, Labels(f.space, sources), |sources|);
  }

  // ---------------------------------------------------------------------------
  // Where nodes come from
  // ---------------------------------------------------------------------------

  /** `line` is a line of some source that could be read. */
  ghost predicate SourceLine(sources: seq<Source>, line: string) {
    exists s, k :: 0 <= s < |sources| && sources[s].feed.Read? && LineAt(sources[s].feed.text, k, line)
  }

  ghost predicate LineAt(text: string, k: int, line: string) {
    0 <= k < |LinesIn(text)| && LinesIn(text)[k] == line
  }

  /** Source lines hold no line break of any kind. */
  lemma SourceLineUnbroken(sources: seq<Source>, line: string)
    requires SourceLine(sources, line)
    ensures Unbroken(line)
  {
    var s, k :| 0 <= s < |sources| && sources[s].feed.Read? && LineAt(sources[s].feed.text, k, line);
    var text := sources[s].feed.text;
    LinesUnbroken(if text != "" && text[0] == BOM then text[1..] else text);
  }

  /** `n` is what the parser makes of some source line. */
  ghost predicate ReadFrom(f: LineFacts, sources: seq<Source>, n: Node) {
    exists line :: SourceLine(sources, line) && Verdict(f, line) == Parsed(n)
  }

  lemma ResultRead(f: LineFacts, sources: seq<Source>, i: nat, name: string)
    requires i < |sources| && ResultOf(f, sources[i], name).Some?
    ensures forall w | w in ResultOf(f, sources[i], name).value.nodes :: ReadFrom(f, sources, w.node)
  {
    var r := ResultOf(f, sources[i], name).value;
    forall w | w in r.nodes ensures ReadFrom(f, sources, w.node) {
      var j :| 0 <= j < |r.nodes| && r.nodes[j] == w;
      NodeRead(f, sources, i, OriginOf(sources[i], name), j);
    }
  }

  lemma NodeRead(f: LineFacts, sources: seq<Source>, i: nat, o: SourceOrigin, j: nat)
    requires i < |sources| && sources[i].feed.Read? && j < |Ingested(f, o, LinesIn(sources[i].feed.text)).nodes|
    ensures ReadFrom(f, sources, Ingested(f, o, LinesIn(sources[i].feed.text)).nodes[j].node)
  {
    hide Verdict, NodesOf, LinesIn;
    var lines := LinesIn(sources[i].feed.text);
    var w := Ingested(f, o, lines).nodes[j];
    NodeComesFrom(f, o, lines, |lines|, j);
    assert LineAt(sources[i].feed.text, w.lineNo - 1, lines[w.lineNo - 1]);
    assert SourceLine(sources, lines[w.lineNo - 1]);
  }

  lemma {:induction false} MergedRead(f: LineFacts, sources: seq<Source>, labels: seq<string>, n: nat)
    requires n <= |sources| == |labels| && MergedFrom(f, sources, labels, n).Some?
    ensures forall w | w in MergedFrom(f, sources, labels, n).value.nodes :: ReadFrom(f, sources, w.node)
  {
    hide ReadFrom, ResultOf, NameAt;
    var before, next := MergedFrom(f, sources, labels, n - 1), ResultOf(f, sources[n - 1], NameAt(labels, n - 1));
    if before.Some? {
      MergedRead(f, sources, labels, n - 1);
    }
    if next.Some? {
      ResultRead(f, sources, n - 1, NameAt(labels, n - 1));
    }
    if before.Some? && next.Some? {
      var moved := MovedNodes(next.value.nodes, before.value.stats.seen);
      forall w | w in moved ensures ReadFrom(f, sources, w.node) {
        var j :| 0 <= j < |moved| && moved[j] == w;
        assert next.value.nodes[j] in next.value.nodes;
      }
    }
  }

  /** Every node of a run was read from a line of one of its sources. */
  lemma RunRead(f: LineFacts, sources: seq<Source>)
    ensures forall w | w in AllMerged(f, sources).nodes :: ReadFrom(f, sources, w.node)
  {
    if MergedFrom(f, sources, Labels(f.space, sources), |sources|).Some? {
      MergedRead(f, sources, Labels(f.space, sources), |sources|);
    }
  }
}
