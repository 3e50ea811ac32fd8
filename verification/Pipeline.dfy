/** `run_pipeline`, from its sources to its files and its audit. */
module Pipeline {
  import opened Common
  import opened Numbers
  import opened Model
  import opened Ingest
  import opened Dedup
  import opened Scoring
  import opened Sorting
  import opened Stages
  import opened Ranking
  import opened Audit
  import opened Verdicts
  import opened Conservation
  import opened Totals
  import opened Sources
  import opened AuditRows
  import Output
  import Groups
  import Paths
  import Writer
  import Publishing
  import Parsing
  import Renaming
  import Text
  import Measure

  /** Where and how to write: the root as it is configured, and whether its codec is UTF-8. */
  datatype Destination = Destination(root: string, utf8: bool, policy: Writer.Policy)

  /** `PipelineConfig`, without the components that ask the network. */
  datatype PipelineConfig = PipelineConfig(
    sources: seq<Source>, keep: string, topN: Option<int>, ranking: RankingPolicy, output: Output.OutputPolicy,
    write: bool, destination: Option<Destination>)

  /** The library facts of every stage. */
  datatype Facts = Facts(
    line: LineFacts, hosts: HostFacts, text: TextFacts, repr: Float -> string, output: Output.OutputLib,
    casing: Paths.Casing)

  datatype PipelineError =
    | NoSources | NoRoot | UnsupportedKeep(keep: string) | RankingRefused(why: RankingError)
    | OutputRefused(output: Output.OutputError) | BadDestination
    | PlanRefused(plan: Writer.PlanError) | WriteFailed(write: Writer.WriteError)

  /** `PipelineStage`, with its counters. */
  datatype StageRecord = StageRecord(stage: Stage, input: int, output: int, dropped: int)

  datatype PipelineResult = PipelineResult(
    sources: seq<SourceReport>, stages: seq<StageRecord>, ranking: RankingResult, bundle: Groups.Bundle,
    written: Option<Writer.WriteOutcome>, nodes: seq<AuditRow>)

  /** `_score_stage`: every measured node is judged, none is filtered out. */
  method ScoreStage(t: TextFacts, ws: seq<IngestedNode>) returns (pairs: seq<Candidate>, js: seq<Judged>, scored: nat)
    ensures js == Map(ws, JudgeOf(t)) && pairs == Map(js, CandidateOf) && scored == ScoredCount(t, ws)
  {
    hide ScoreNode, ScoredCount;
    pairs, js, scored := [], [], 0;
    NoneScored(t);
    for i := 0 to |ws|
      invariant js == Map(ws[..i], JudgeOf(t)) && pairs == Map(js, CandidateOf) && scored == ScoredCount(t, ws[..i])
    {
      var w := ws[i];
      var outcome := ScoreNode(t, w.node);
      ScoredSnoc(t, ws[..i], w);
      MapSnoc(js, Judged(w, outcome), CandidateOf);
      MapSnoc(ws[..i], w, JudgeOf(t));
      assert ws[..i + 1] == ws[..i] + [w];
      js := js + [Judged(w, outcome)];
      pairs := pairs + [Candidate(w.node, outcome)];
      if outcome.status == Scored {
        scored := scored + 1;
      }
    }
    assert ws[..|ws|] == ws;
  }

  /** What the stages of a run report, besides the ingest. */
  ghost function Records(flow: Flow, lines: int, ranked: int): seq<StageRecord> {
    [StageRecord(DEDUP, lines, flow.kept, lines - flow.kept),
     StageRecord(DNS, flow.kept, flow.resolved, flow.kept - flow.resolved),
     StageRecord(GEO, flow.resolved, flow.located, 0),
     StageRecord(Stage.TCP, flow.located, flow.connected, flow.located - flow.connected),
     StageRecord(HANDSHAKE, flow.connected, flow.greeted, flow.connected - flow.greeted),
     StageRecord(MEASURE, flow.greeted, flow.measured, flow.greeted - flow.measured),
     StageRecord(SCORE, flow.measured, flow.scored, flow.measured - flow.scored),
     StageRecord(RANK, flow.measured, ranked, flow.measured - ranked)]
  }

  lemma JudgedAdmitted(t: TextFacts, ws: seq<IngestedNode>)
    ensures Admitted(Map(Map(ws, JudgeOf(t)), CandidateOf))
  {
    hide ScoreNode, RefusalOf;
    var cs := Map(Map(ws, JudgeOf(t)), CandidateOf);
    forall c | c in cs ensures RefusalOf(c).None? {
      var i :| 0 <= i < |cs| && cs[i] == c;
      assert c == Candidate(ws[i].node, ScoreNode(t, ws[i].node));
      ScoredIsAdmitted(t, c);
    }
  }

  lemma RunIsMergeable(world: World, t: TextFacts, f: LineFacts, hosts: HostFacts, repr: Float -> string,
                       sources: seq<Source>, topN: Option<int>)
    requires Faithful(f) && NoClash(Labels(f.space, sources))
    ensures var m := AllMerged(f, sources);
            var ranked := RankingOf(repr, Map(Judgements(world, t, hosts, m.nodes), CandidateOf), topN).ranked;
            Mergeable(world, t, hosts, m.errors, m.nodes, ranked)
  {
    var m := AllMerged(f, sources);
    LinesOfRun(f, sources);
    hide AllMerged, UniqueLines, Witnessed, RankingOf, Measured, Kept;
    MeasuredNodesDistinct(world, hosts, f.parse, m.nodes);
    RankingJoins(repr, t, Measured(world, Kept(hosts, m.nodes)), topN);
  }

  lemma RanksCount(repr: Float -> string, cs: seq<Candidate>, topN: Option<int>)
    ensures var ranked := RankingOf(repr, cs, topN).ranked; forall i | 0 <= i < |ranked| :: ranked[i].rank == i + 1
  {
    hide Ranked;
  }

  /** `safe_parse_url`. */
  function SafeParse(lib: Parsing.UrlLib): string -> Option<Node> {
    (url: string) => match Parsing.ParseUrl(lib, url) case Ok(n) => Some(n) case Err(_) => None
  }

  /** The configuration parser is a parser a run can rely on. */
  lemma ParserServesRun(lib: Parsing.UrlLib, hash: string -> string)
    ensures Faithful(LineFacts(lib.names.space, SafeParse(lib), hash))
    ensures MeasuresNothing(LineFacts(lib.names.space, SafeParse(lib), hash))
  {
    hide Parsing.ParseUrl;
    forall line | SafeParse(lib)(line).Some?
      ensures SafeParse(lib)(line).value.rawUrl == Parsing.Trimmed(lib, line) && Unmeasured(SafeParse(lib)(line).value)
    {
      Renaming.ParserFaithful(lib, line);
      Renaming.ParsedUnmeasured(lib, line);
    }
  }

  /** The reports of the four live stages whose failures reach the audit. */
  datatype LiveReports = LiveReports(dns: seq<Report>, tcp: seq<Report>, handshake: seq<Report>, measure: seq<Report>)

  ghost function LiveReportsOf(world: World, kept: seq<IngestedNode>): LiveReports {
    LiveReports(Reports(kept, DNS, DnsSteps(world)), Reports(Located(world, kept), Stage.TCP, TcpSteps(world)),
                Reports(Connected(world, kept), HANDSHAKE, HandshakeSteps(world)),
                Reports(Greeted(world, kept), MEASURE, MeasureSteps(world)))
  }

  /** The live part of a run: DNS, geo, TCP, handshake and measurement, each on the survivors of the one before. */
  method LiveStages(world: World, kept: seq<IngestedNode>)
    returns (measured: seq<IngestedNode>, reports: LiveReports, stages: seq<StageRecord>)
    ensures measured == Measured(world, kept)
    ensures reports == LiveReportsOf(world, kept)
    ensures stages == LiveRecords(|kept|, |Resolved(world, kept)|, |Located(world, kept)|, |Connected(world, kept)|,
                                  |Greeted(world, kept)|, |Measured(world, kept)|)
  {
    hide Survivors, Reports, DnsSteps, GeoSteps, TcpSteps, HandshakeSteps, MeasureSteps;
    var resolved, dns := ResolveNodes(world, kept);
    var located, geo := GeoStage(world, resolved);
    var connected, tcp := TcpStage(world, located);
    var greeted, handshake := HandshakeStage(world, connected);
    var measure;
    measured, measure := MeasureStage(world, greeted);
    reports := LiveReports(dns, tcp, handshake, measure);
    stages := LiveRecords(|kept|, |resolved|, |located|, |connected|, |greeted|, |measured|);
  }

  /** One row for each line, agreeing with the counters, and the ranks on the right rows. */
  ghost predicate RunAudited(world: World, t: TextFacts, hosts: HostFacts, m: IngestResult, ranked: seq<RankedItem>,
                             rows: seq<AuditRow>) {
    && |rows| == |m.errors| + |m.nodes|
    && CountOf(rows, REJECTED, Some(INGEST)) == |m.errors|
    && CountOf(rows, DROPPED, Some(DEDUP)) == |m.nodes| - |Kept(hosts, m.nodes)|
    && Agree(FlowOf(world, t, Kept(hosts, m.nodes)), rows)
    && Audits(world, t, hosts, m.errors, m.nodes, ranked, rows)
    && RanksJoined(world, t, hosts, m.nodes, ranked)
    && Spelled(world, t, hosts, m.errors, m.nodes, ranked, rows) && InOrder(rows)
  }

  /** The ranking of everything a run measured. */
  ghost function RunRanking(k: Facts, world: World, c: PipelineConfig): RankingResult {
    var m := AllMerged(k.line, c.sources);
    RankingOf(k.repr, Map(Judgements(world, k.text, k.hosts, m.nodes), CandidateOf), c.topN)
  }

  // ---------------------------------------------------------------------------
  // From the sources to the ranking
  // ---------------------------------------------------------------------------

  /** What a run knows when it has ranked, before it renders. */
  datatype RankedRun = RankedRun(
    merged: IngestResult, sources: seq<SourceReport>, dropped: seq<IngestedNode>, live: LiveReports,
    judged: seq<Judged>,
    ranking: RankingResult, stages: seq<StageRecord>)

  ghost predicate RankedFor(k: Facts, world: World, c: PipelineConfig, run: RankedRun) {
    var kept := Kept(k.hosts, run.merged.nodes);
    && run.merged == AllMerged(k.line, c.sources) && run.dropped == DroppedLines(k.hosts, run.merged.nodes)
    && run.live == LiveReportsOf(world, kept) && run.judged == Judgements(world, k.text, k.hosts, run.merged.nodes)
    && run.ranking == RunRanking(k, world, c)
    && run.stages == Records(FlowOf(world, k.text, kept), |run.merged.nodes|, |run.ranking.ranked|)
  }

  method RankSources(k: Facts, world: World, c: PipelineConfig) returns (r: Result<RankedRun, PipelineError>)
    ensures c.keep != "first" ==> r == Err(UnsupportedKeep(c.keep))
    ensures c.keep == "first" && Complaint(c.ranking, c.topN).Some? ==>
              r == Err(RankingRefused(Complaint(c.ranking, c.topN).value))
    ensures c.keep == "first" && Complaint(c.ranking, c.topN).None? ==> r.Ok? && RankedFor(k, world, c, r.value)
  {
    hide AllMerged, Resolved, Located, Connected, Greeted, Measured, Reports, RankingOf, ScoreNode, JudgeOf,
         ScoredCount;
    hide DnsSteps, TcpSteps, HandshakeSteps, MeasureSteps, LiveRecords, Complaint, RankedFor;
    var m, reports := RunSources(k.line, c.sources);
    var deduped := DedupNodes(k.hosts, m.nodes, c.keep);
    if deduped.Err? {
      return Err(UnsupportedKeep(deduped.error));
    }
    var kept, dropped := deduped.value.kept, deduped.value.dropped;
    assert kept == Kept(k.hosts, m.nodes) && dropped == DroppedLines(k.hosts, m.nodes);
    hide Kept, DroppedLines;
    var measured, live, stages := LiveStages(world, kept);
    var pairs, js, scored := ScoreStage(k.text, measured);
    var ranking := RankCandidates(k.repr, pairs, c.topN, c.ranking);
    JudgedAdmitted(k.text, measured);
    if ranking.Err? {
      return Err(RankingRefused(ranking.error));
    }
    var ranked := ranking.value.ranked;
    stages := [StageRecord(DEDUP, |kept| + |dropped|, |kept|, |dropped|)] + stages
      + [StageRecord(SCORE, |measured|, scored, |measured| - scored),
         StageRecord(RANK, |pairs|, |ranked|, |pairs| - |ranked|)];
    assert stages == Records(FlowOf(world, k.text, kept), |m.nodes|, |ranked|) by {
      KeptAndDropped(k.hosts, m.nodes);
      RecordsJoin(FlowOf(world, k.text, kept), |m.nodes|, |dropped|, |ranked|);
    }
    r := Ok(RankedRun(m, reports, dropped, live, js, ranking.value, stages));
    RanksFor(k, world, c, r.value);
  }

  lemma RanksFor(k: Facts, world: World, c: PipelineConfig, run: RankedRun)
    requires run.merged == AllMerged(k.line, c.sources) && run.dropped == DroppedLines(k.hosts, run.merged.nodes)
    requires run.live == LiveReportsOf(world, Kept(k.hosts, run.merged.nodes))
    requires run.judged == Map(Measured(world, Kept(k.hosts, run.merged.nodes)), JudgeOf(k.text))
    requires run.ranking == RankingOf(k.repr, Map(run.judged, CandidateOf), c.topN)
    requires run.stages == Records(FlowOf(world, k.text, Kept(k.hosts, run.merged.nodes)), |run.merged.nodes|,
                                   |run.ranking.ranked|)
    ensures RankedFor(k, world, c, run)
  {
    hide AllMerged, Kept, DroppedLines, LiveReportsOf, Measured, RankingOf, Records, FlowOf;
  }

  // ---------------------------------------------------------------------------
  // What is rendered
  // ---------------------------------------------------------------------------

  function EntryOf(item: RankedItem): Output.Entry {
    Output.Entry(item.node, item.outcome)
  }

  function UnlistedOf(row: Row<seq<string>>): Groups.Unlisted {
    (row.outcome.status, row.outcome.detail)
  }

  /** What a run renders: its ranked items, in order. */
  ghost function RunEntries(k: Facts, world: World, c: PipelineConfig): seq<Output.Entry> {
    Map(RunRanking(k, world, c).ranked, EntryOf)
  }

  /** Every link has a text before its fragment, without control characters. */
  ghost predicate Printable(es: seq<Output.Entry>) {
    forall e | e in es :: Output.LinkBody(e.node).Ok?
  }

  /** The part of a source line that is checked when it is rendered. */
  ghost predicate PrintableLine(f: LineFacts, line: string) {
    var body := Text.Before(Text.Strip(line, f.space), '#');
    body != "" && !Output.Controlled(body)
  }

  /** Every ranked node still carries a source line as its raw text. */
  lemma RankedFromLine(k: Facts, world: World, c: PipelineConfig, i: nat) returns (line: string)
    requires Faithful(k.line) && i < |RunRanking(k, world, c).ranked|
    ensures SourceLine(c.sources, line)
            && RunRanking(k, world, c).ranked[i].node.rawUrl == Text.Strip(line, k.line.space)
  {
    var m := AllMerged(k.line, c.sources);
    var kept := Kept(k.hosts, m.nodes);
    var ws := Measured(world, kept);
    RunRead(k.line, c.sources);
    var w := RankedFromWrapper(k, world, c, i);
    MeasuredTraced(world, kept);
    hide AllMerged, Kept, Measured, RunRanking, SourceLine;
    var u :| u in kept && NodeKey(u) == NodeKey(w) && u.node.rawUrl == w.node.rawUrl;
    KeptAreNodes(k.hosts, m.nodes, u);
    line :| SourceLine(c.sources, line) && Verdict(k.line, line) == Parsed(u.node);
    VerdictRaw(k.line, line, u.node);
  }

  lemma RankedFromWrapper(k: Facts, world: World, c: PipelineConfig, i: nat) returns (w: IngestedNode)
    requires i < |RunRanking(k, world, c).ranked|
    ensures w in Measured(world, Kept(k.hosts, AllMerged(k.line, c.sources).nodes))
    ensures w.node == RunRanking(k, world, c).ranked[i].node && ScoreNode(k.text, w.node).status == Scored
  {
    var ws := Measured(world, Kept(k.hosts, AllMerged(k.line, c.sources).nodes));
    hide AllMerged, Kept, Measured, Ranked, Unranked, ScoreNode;
    var cs := Map(Map(ws, JudgeOf(k.text)), CandidateOf);
    assert RunRanking(k, world, c) == RankingOf(k.repr, cs, c.topN);
    RowsKeyed(k.repr, cs, i);
    var d := Entry(Ranked(k.repr, cs)[i]);
    var j :| 0 <= j < |cs| && cs[j] == d;
    w := ws[j];
  }

  lemma GreetedUnmeasured(k: Facts, world: World, c: PipelineConfig)
    requires MeasuresNothing(k.line)
    ensures forall y | y in Greeted(world, Kept(k.hosts, AllMerged(k.line, c.sources).nodes)) :: Unmeasured(y.node)
  {
    var m := AllMerged(k.line, c.sources);
    var kept := Kept(k.hosts, m.nodes);
    RunRead(k.line, c.sources);
    EarlyStagesMeasureNothing(world);
    hide AllMerged, Kept, Verdict, Survivors, DnsSteps, GeoSteps, TcpSteps, HandshakeSteps, KeepsUnmeasured, SourceLine;
    forall w | w in kept ensures Unmeasured(w.node) {
      KeptAreNodes(k.hosts, m.nodes, w);
      var line :| SourceLine(c.sources, line) && Verdict(k.line, line) == Parsed(w.node);
      VerdictUnmeasured(k.line, line, w.node);
    }
    SurvivorsUnmeasured(kept, DnsSteps(world));
    SurvivorsUnmeasured(Resolved(world, kept), GeoSteps(world));
    SurvivorsUnmeasured(Located(world, kept), TcpSteps(world));
    SurvivorsUnmeasured(Connected(world, kept), HandshakeSteps(world));
  }

  lemma VerdictUnmeasured(f: LineFacts, raw: string, n: Node)
    requires MeasuresNothing(f) && Verdict(f, raw) == Parsed(n)
    ensures Unmeasured(n)
  {
  }

  /**
   * No rank of a run is fabricated: each ranked item is a node that reached measurement
   * unmeasured and was put through two genuine cycles there.
   */
  lemma EarnedInRun(k: Facts, world: World, c: PipelineConfig, i: nat)
    returns (y: IngestedNode, session: Measure.Session)
    requires MeasuresNothing(k.line) && i < |RunRanking(k, world, c).ranked|
    ensures y in Greeted(world, Kept(k.hosts, AllMerged(k.line, c.sources).nodes)) && Unmeasured(y.node)
    ensures world.measurer.Some? && world.measurer.value(y) == Probed(session)
    ensures EarnedBy(k.text, world.probes, world.credentialProbe, y.node, session,
                     RunRanking(k, world, c).ranked[i].node)
  {
    var greeted := Greeted(world, Kept(k.hosts, AllMerged(k.line, c.sources).nodes));
    var w := RankedFromWrapper(k, world, c, i);
    GreetedUnmeasured(k, world, c);
    hide AllMerged, Kept, Greeted, RunRanking, MeasureSteps, MeasuresNothing, ScoreNode, EarnedBy;
    SurvivorFrom(greeted, MeasureSteps(world), w);
    y :| y in greeted && MeasureSteps(world)(y).Keep? && w == y.(node := MeasureSteps(world)(y).node);
    session := MeasuredHonestly(k.text, world, y);
  }

  /** A node that measurement kept and the scorer scored was measured. */
  lemma MeasuredHonestly(t: TextFacts, world: World, y: IngestedNode) returns (session: Measure.Session)
    requires Unmeasured(y.node) && MeasureSteps(world)(y).Keep?
    requires ScoreNode(t, MeasureSteps(world)(y).node).status == Scored
    ensures world.measurer.Some? && world.measurer.value(y) == Probed(session)
    ensures EarnedBy(t, world.probes, world.credentialProbe, y.node, session, MeasureSteps(world)(y).node)
  {
    hide Measure.Attached, Measure.Genuine, Measure.Probeable, ArchBonus, Round2, Measure.WindowMs;
    assert world.measurer.Some? by { ScoredExactly(t, y.node); hide ScoreNode; }
    session := world.measurer.value(y).session;
    hide ScoreNode;
    Measure.NoFabrication(t, world.probes, y.node, world.credentialProbe, session);
  }

  lemma VerdictRaw(f: LineFacts, raw: string, n: Node)
    requires Faithful(f) && Verdict(f, raw) == Parsed(n)
    ensures n.rawUrl == Text.Strip(raw, f.space)
  {
    Text.StripEnds(raw, f.space);
    Text.StripFix(Text.Strip(raw, f.space), f.space);
  }

  /**
   * Rendering a run is refused exactly because of a source line: one whose text before
   * its fragment is empty or has a control character, and that was ranked.
   */
  lemma RefusedByLineExactly(k: Facts, world: World, c: PipelineConfig)
    requires Faithful(k.line)
    ensures !Printable(RunEntries(k, world, c))
            <==> exists line :: SourceLine(c.sources, line) && !PrintableLine(k.line, line)
                                && RankedLine(k, world, c, Text.Strip(line, k.line.space))
  {
    var items := RunRanking(k, world, c).ranked;
    var es := RunEntries(k, world, c);
    hide RunRanking, SourceLine, Output.Controlled, Text.Before, Text.Strip;
    if e :| e in es && Output.LinkBody(e.node).Err? {
      var i :| 0 <= i < |es| && es[i] == e;
      var line := RankedFromLine(k, world, c, i);
      assert items[i] in items && !PrintableLine(k.line, line);
    }
    if line :| SourceLine(c.sources, line) && !PrintableLine(k.line, line)
               && RankedLine(k, world, c, Text.Strip(line, k.line.space)) {
      var item :| item in items && item.node.rawUrl == Text.Strip(line, k.line.space);
      var i :| 0 <= i < |items| && items[i] == item;
      assert es[i] == EntryOf(item) && es[i] in es;
    }
  }

  /** Some ranked node has this raw text. */
  ghost predicate RankedLine(k: Facts, world: World, c: PipelineConfig, raw: string) {
    exists item :: item in RunRanking(k, world, c).ranked && item.node.rawUrl == raw
  }

  /** Source lines hold no line break, so no raw text of the run does. */
  lemma RunUnbroken(k: Facts, world: World, c: PipelineConfig)
    requires Faithful(k.line)
    ensures forall e | e in RunEntries(k, world, c) :: Output.OneLine(e.node.rawUrl)
  {
    var es := RunEntries(k, world, c);
    hide RunRanking, SourceLine, Text.Strip;
    forall e | e in es ensures Output.OneLine(e.node.rawUrl) {
      var i :| 0 <= i < |es| && es[i] == e;
      var line := RankedFromLine(k, world, c, i);
      SourceLineUnbroken(c.sources, line);
      Publishing.StripPart(line, k.line.space);
    }
  }

  /** So every text file of a run holds exactly the lines that are reported for it. */
  lemma RunFramed(k: Facts, world: World, c: PipelineConfig, b: Groups.Bundle)
    requires Faithful(k.line) && Output.ValidPolicy(c.output)
    requires Groups.Bundled(k.output, c.output, RunEntries(k, world, c), b)
    ensures Groups.BundleCounted(c.output, b)
  {
    RunUnbroken(k, world, c);
    hide RunEntries, Groups.Bundled, Output.OneLine, Output.FallsBack;
    Groups.BundleLines(k.output, c.output, RunEntries(k, world, c), b);
  }

  // ---------------------------------------------------------------------------
  // The run
  // ---------------------------------------------------------------------------

  /** The first thing wrong with what the caller configured, apart from the destination's root and codec. */
  function CallerError(c: PipelineConfig): Option<PipelineError> {
    if c.sources == [] then Some(NoSources)
    else if c.write && (c.destination.None? || c.destination.value.root == "") then Some(NoRoot)
    else if c.keep != "first" then Some(UnsupportedKeep(c.keep))
    else if Complaint(c.ranking, c.topN).Some? then Some(RankingRefused(Complaint(c.ranking, c.topN).value))
    else if !Output.AcceptedPolicy(c.output) then Some(OutputRefused(Output.BadPolicy))
    else None
  }

  /** The writer takes only a root that is not blank, and only UTF-8. */
  predicate Writable(k: Facts, c: PipelineConfig) {
    c.destination.Some? && Text.Strip(c.destination.value.root, k.line.space) != "" && c.destination.value.utf8
  }

  /** Exactly such a destination will do. */
  lemma WritableExactly(k: Facts, c: PipelineConfig)
    ensures Writable(k, c) <==>
            c.destination.Some? && Text.Strip(c.destination.value.root, k.line.space) != "" && c.destination.value.utf8
  {
    hide Text.Strip;
  }

  /** What is rendered are the ranked nodes with their outcomes, in rank order; what is listed, the others' verdicts. */
  lemma EntriesSpelled(k: Facts, world: World, c: PipelineConfig, b: Groups.Bundle)
    requires Rendered(k, world, c, b)
    ensures var es, ranking := RunEntries(k, world, c), RunRanking(k, world, c);
            && |es| == |ranking.ranked| == b.nodes && |b.unranked| == |ranking.unranked|
            && (forall i | 0 <= i < |es| ::
                  es[i].node == ranking.ranked[i].node && es[i].outcome == ranking.ranked[i].outcome)
            && (forall i | 0 <= i < |b.unranked| ::
                  && b.unranked[i].0 == ranking.unranked[i].outcome.status
                  && b.unranked[i].1 == ranking.unranked[i].outcome.detail)
  {
    hide RunRanking, Output.RenderText, Output.RenderPayload, Groups.FilesOf, Groups.Renders, Groups.Tallied;
  }

  ghost predicate CountriesFit(k: Facts, world: World, c: PipelineConfig) {
    Publishing.CountriesPublishable(k.casing, Groups.CountryFile(k.output, c.output), RunEntries(k, world, c))
  }

  ghost predicate Rendered(k: Facts, world: World, c: PipelineConfig, b: Groups.Bundle) {
    && Groups.Bundled(k.output, c.output, RunEntries(k, world, c), b)
    && b.unranked == Map(RunRanking(k, world, c).unranked, UnlistedOf) && Groups.Tallied(b.unranked, b.byStatus)
  }

  /** The files after publishing the first `n` artifacts of a bundle. */
  ghost function PublishedPart(before: map<string, seq<byte>>, b: Groups.Bundle, n: nat): map<string, seq<byte>>
    requires n <= |Publishing.Artifacts(b)|
  {
    Writer.Publish(before, Writer.Planned(Publishing.Artifacts(b)), n)
  }

  /** The first artifacts of the run's bundle are published, but not all. */
  ghost predicate PartlyPublished(k: Facts, world: World, c: PipelineConfig, before: map<string, seq<byte>>,
                                  after: map<string, seq<byte>>) {
    exists b, n ::
      Rendered(k, world, c, b) && 0 <= n < |Publishing.Artifacts(b)| && after == PublishedPart(before, b, n)
  }

  /** All artifacts of a bundle are published and read back whole; no other file is touched. */
  ghost predicate FullyPublished(b: Groups.Bundle, before: map<string, seq<byte>>, after: map<string, seq<byte>>) {
    && after == PublishedPart(before, b, |Publishing.Artifacts(b)|)
    && Writer.Installed(after, Writer.Planned(Publishing.Artifacts(b)))
  }

  /** The reported lines of each text file are the lines it holds. */
  ghost predicate FilesCounted(c: PipelineConfig, b: Groups.Bundle) {
    Output.ValidPolicy(c.output) && Groups.BundleCounted(c.output, b)
  }

  /** The parser records its line, and no source label looks like a numbered one. */
  ghost predicate SourcesNamed(k: Facts, c: PipelineConfig) {
    Faithful(k.line) && NoClash(Labels(k.line.space, c.sources))
  }

  /** One row for each line, agreeing with the counters, and the ranks on the right rows. */
  ghost predicate Accounted(k: Facts, world: World, c: PipelineConfig, ranked: seq<RankedItem>, rows: seq<AuditRow>) {
    RunAudited(world, k.text, k.hosts, AllMerged(k.line, c.sources), ranked, rows)
  }

  /** The counters of a whole run are those of the lists passed from stage to stage. */
  ghost predicate Recorded(k: Facts, world: World, c: PipelineConfig, r: PipelineResult) {
    var m := AllMerged(k.line, c.sources);
    && (r.written.Some? <==> c.write)
    && r.stages == Records(FlowOf(world, k.text, Kept(k.hosts, m.nodes)), |m.nodes|, |r.ranking.ranked|)
                   + [StageRecord(OUTPUT, |r.ranking.ranked|, |r.ranking.ranked|, 0)]
                   + (if c.write then [StageRecord(WRITE, |r.written.value.files|, r.written.value.written, 0)] else [])
  }

  /**
   * The last two stages.  Nothing is written unless everything renders and plans, and
   * identical files are rewritten too, so that every failing operation is noticed.
   */
  method RenderAndWrite(k: Facts, world: World, c: PipelineConfig, ranking: RankingResult, volume: Writer.Volume)
    returns (r: Result<(Groups.Bundle, Option<Writer.WriteOutcome>), PipelineError>)
    requires volume.Valid() && k.casing.Lawful() && Publishing.OutputLawful(k.output)
    requires ranking == RunRanking(k, world, c) && (c.write ==> c.destination.Some?)
    modifies volume
    ensures volume.Valid() && volume.failures >= old(volume.failures)
    ensures r == Err(OutputRefused(Output.BadPolicy)) <==> !Output.AcceptedPolicy(c.output)
    ensures (r.Err? && r.error.OutputRefused?)
            <==> !Output.AcceptedPolicy(c.output) || !Printable(RunEntries(k, world, c))
    ensures r.Ok? || r.error.OutputRefused? || (c.write && r.error in {BadDestination})
            || (c.write && r.error.PlanRefused?) || (c.write && r.error.WriteFailed?)
    ensures r.Ok? && c.write ==> Writable(k, c) && CountriesFit(k, world, c)
                                 && volume.failures == old(volume.failures)
    ensures r == Err(BadDestination) ==> !Writable(k, c)
    ensures r.Err? && r.error.PlanRefused? ==> !CountriesFit(k, world, c)
    ensures r.Err? && r.error.WriteFailed? ==> volume.failures > old(volume.failures)
    ensures (r.Err? && !r.error.WriteFailed?) || !c.write ==>
              volume.files == old(volume.files) && volume.failures == old(volume.failures)
    ensures r.Err? && r.error.WriteFailed? ==>
              PartlyPublished(k, world, c, old(volume.files), volume.files)
    ensures r.Ok? ==> Rendered(k, world, c, r.value.0) && (r.value.1.Some? <==> c.write)
    ensures r.Ok? && c.write ==> FullyPublished(r.value.0, old(volume.files), volume.files)
    ensures r.Ok? && c.write ==> r.value.1.value.written == |Publishing.Artifacts(r.value.0)|
  {
    hide RunRanking, Groups.Bundled, Groups.Tallied, Publishing.CountriesPublishable, Publishing.Artifacts,
         Writer.Installed;
    hide Writer.Publish, Publishing.OutputLawful, Output.LinkBody, Writable, Groups.CountryFile, Writer.Planned;
    var es, unranked := Map(ranking.ranked, EntryOf), Map(ranking.unranked, UnlistedOf);
    var built := Groups.BuildOutputs(k.output, es, unranked, c.output);
    if built.Err? {
      return Err(OutputRefused(built.error));
    }
    var b := built.value;
    if !c.write {
      return Ok((b, None));
    }
    var d := c.destination.value;
    if !Writable(k, c) {
      return Err(BadDestination);
    }
    var w, n := Publishing.PublishBundle(k.casing, k.output, c.output, es, b, volume,
                                         d.policy.(skipIdentical := false));
    if w.Err? && w.error.Unplannable? {
      return Err(PlanRefused(w.error.plan));
    }
    if w.Err? {
      assert volume.files == PublishedPart(old(volume.files), b, n);
      return Err(WriteFailed(w.error.write));
    }
    return Ok((b, Some(w.value)));
  }

  /** What the two last stages report. */
  function LastRecords(ranked: int, written: Option<Writer.WriteOutcome>): seq<StageRecord> {
    [StageRecord(OUTPUT, ranked, ranked, 0)]
    + (if written.Some? then [StageRecord(WRITE, |written.value.files|, written.value.written, 0)] else [])
  }

  /**
   * `run_pipeline`, for whatever the sources hold and the outside world answers.  It
   * fails exactly when the caller's inputs are malformed, when the link of a ranked node
   * cannot be printed, when its countries cannot be told apart as files, or when a write
   * operation fails.  What it returns then: counters that are those of the lists passed
   * from stage to stage, files that hold the rendered ranking, and, when no source label
   * looks like a numbered one, an audit with one row for each line that agrees with the
   * counters and carries the ranks on the right rows.
   */
  method RunPipeline(k: Facts, world: World, c: PipelineConfig, volume: Writer.Volume)
    returns (r: Result<PipelineResult, PipelineError>)
    requires volume.Valid() && k.casing.Lawful() && Publishing.OutputLawful(k.output)
    modifies volume
    ensures CallerError(c).Some? ==> r == Err(CallerError(c).value)
    ensures r.Ok? <==>
              && CallerError(c).None? && Printable(RunEntries(k, world, c))
              && (c.write ==> Writable(k, c) && CountriesFit(k, world, c) && volume.failures == old(volume.failures))
    ensures (r.Err? && !r.error.WriteFailed?) || !c.write ==> volume.files == old(volume.files)
    ensures r.Err? && r.error.WriteFailed? ==> PartlyPublished(k, world, c, old(volume.files), volume.files)
    ensures r.Ok? && c.write ==> FullyPublished(r.value.bundle, old(volume.files), volume.files)
    ensures r.Ok? ==> r.value.ranking == RunRanking(k, world, c) && Rendered(k, world, c, r.value.bundle)
    ensures r.Ok? ==> Recorded(k, world, c, r.value)
    ensures r.Ok? && Faithful(k.line) ==> FilesCounted(c, r.value.bundle)
    ensures r.Ok? && SourcesNamed(k, c) ==> Accounted(k, world, c, r.value.ranking.ranked, r.value.nodes)
  {
    hide RankedFor, RunRanking, RunEntries, Printable, CountriesFit, Rendered, Complaint;
    hide Faithful, NoClash, RunAudited, Publishing.OutputLawful, Writable, AllMerged;
    hide Records, Kept, PartlyPublished, FlowOf, Labels, FullyPublished, FilesCounted;
    if c.sources == [] {
      return Err(NoSources);
    }
    if c.write && (c.destination.None? || c.destination.value.root == "") {
      return Err(NoRoot);
    }
    var ranked := RankSources(k, world, c);
    if ranked.Err? {
      return Err(ranked.error);
    }
    var run := ranked.value;
    RankedParts(k, world, c, run);
    var out := RenderAndWrite(k, world, c, run.ranking, volume);
    if out.Err? {
      return Err(out.error);
    }
    var (bundle, written) := out.value;
    var rows := AuditRun(k, world, c, run);
    if Faithful(k.line) {
      BundleFramed(k, world, c, bundle);
    }
    return Ok(PipelineResult(run.sources, run.stages + LastRecords(|run.ranking.ranked|, written), run.ranking,
                             bundle, written, rows));
  }

  lemma RankedParts(k: Facts, world: World, c: PipelineConfig, run: RankedRun)
    requires RankedFor(k, world, c, run)
    ensures run.ranking == RunRanking(k, world, c)
    ensures var m := AllMerged(k.line, c.sources);
            run.stages == Records(FlowOf(world, k.text, Kept(k.hosts, m.nodes)), |m.nodes|, |run.ranking.ranked|)
  {
  }

  lemma BundleFramed(k: Facts, world: World, c: PipelineConfig, b: Groups.Bundle)
    requires Faithful(k.line) && Output.AcceptedPolicy(c.output) && Rendered(k, world, c, b)
    ensures FilesCounted(c, b)
  {
    hide Faithful, RunEntries, Groups.Bundled, Groups.BundleCounted;
    RunFramed(k, world, c, b);
  }

  /** The audit, merged when everything else is done. */
  method AuditRun(k: Facts, world: World, c: PipelineConfig, run: RankedRun) returns (rows: seq<AuditRow>)
    requires RankedFor(k, world, c, run)
    ensures SourcesNamed(k, c) ==> Accounted(k, world, c, run.ranking.ranked, rows)
  {
    hide AllMerged, Kept, DroppedLines, Reports, DnsSteps, TcpSteps, HandshakeSteps, MeasureSteps, RankingOf,
         Faithful, NoClash;
    hide Located, Connected, Greeted, Judgements, RowLe, Coherent, Audit.Merge, RunAudited, Sort;
    rows := MergeNodeReports(run.merged.errors, run.merged.nodes, run.dropped, run.live.dns, run.live.tcp,
                             run.live.handshake,
                             run.live.measure, run.judged, run.ranking.ranked);
    if Faithful(k.line) && NoClash(Labels(k.line.space, c.sources)) {
      RunIsMergeable(world, k.text, k.line, k.hosts, k.repr, c.sources, c.topN);
      RanksCount(k.repr, Map(run.judged, CandidateOf), c.topN);
      RowsAudited(world, k.text, k.hosts, run.merged, run.ranking.ranked, rows);
    }
  }

  function LiveRecords(kept: int, resolved: int, located: int, connected: int, greeted: int,
                       measured: int): seq<StageRecord> {
    [StageRecord(DNS, kept, resolved, kept - resolved),
     StageRecord(GEO, resolved, located, 0),
     StageRecord(Stage.TCP, located, connected, located - connected),
     StageRecord(HANDSHAKE, connected, greeted, connected - greeted),
     StageRecord(MEASURE, greeted, measured, greeted - measured)]
  }

  lemma RecordsJoin(flow: Flow, lines: int, dropped: int, ranked: int)
    requires flow.kept + dropped == lines
    ensures [StageRecord(DEDUP, flow.kept + dropped, flow.kept, dropped)]
            + LiveRecords(flow.kept, flow.resolved, flow.located, flow.connected, flow.greeted, flow.measured)
            + [StageRecord(SCORE, flow.measured, flow.scored, flow.measured - flow.scored),
               StageRecord(RANK, flow.measured, ranked, flow.measured - ranked)]
            == Records(flow, lines, ranked)
  {
  }

  /** A listing of all verdicts agrees with the counters. */
  lemma CountersAudited(world: World, t: TextFacts, hosts: HostFacts, errors: seq<IngestError>,
                        nodes: seq<IngestedNode>, ranked: seq<RankedItem>,
                        rows: seq<AuditRow>)
    requires DistinctKeys(nodes, NodeKey) && Audits(world, t, hosts, errors, nodes, ranked, rows)
    ensures |rows| == |errors| + |nodes|
    ensures CountOf(rows, REJECTED, Some(INGEST)) == |errors|
    ensures CountOf(rows, DROPPED, Some(DEDUP)) == |nodes| - |Kept(hosts, nodes)|
    ensures Agree(FlowOf(world, t, Kept(hosts, nodes)), rows)
  {
    hide DistinctKeys, Audits, CountOf, Agree, FlowOf, Kept, DroppedLines;
    LineConservation(world, t, hosts, errors, nodes, ranked, rows);
    KeptAndDropped(hosts, nodes);
  }

  /** The sorted merge lists every verdict once, its counters agree, and the ranks are where they belong. */
  lemma RowsAudited(world: World, t: TextFacts, hosts: HostFacts, m: IngestResult, ranked: seq<RankedItem>,
                    rows: seq<AuditRow>)
    requires Mergeable(world, t, hosts, m.errors, m.nodes, ranked) && forall i | 0 <= i < |ranked| ::
               ranked[i].rank == i + 1
    requires Coherent(MergedRun(world, t, hosts, m.errors, m.nodes, ranked))
    requires rows == Sort(Listing(MergedRun(world, t, hosts, m.errors, m.nodes, ranked)), RowLe)
    ensures RunAudited(world, t, hosts, m, ranked, rows)
  {
    hide *;
    MergeableKeys(world, t, hosts, m.errors, m.nodes, ranked);
    SortedAudits(world, t, hosts, m.errors, m.nodes, ranked, rows);
    RankBijection(world, t, hosts, m.errors, m.nodes, ranked);
    CountersAudited(world, t, hosts, m.errors, m.nodes, ranked, rows);
    RowsSpelled(world, t, hosts, m.errors, m.nodes, ranked, rows);
    TableInOrder(MergedRun(world, t, hosts, m.errors, m.nodes, ranked), rows);
    AuditHolds(world, t, hosts, m, ranked, rows);
  }

  lemma AuditHolds(world: World, t: TextFacts, hosts: HostFacts, m: IngestResult, ranked: seq<RankedItem>,
                   rows: seq<AuditRow>)
    requires |rows| == |m.errors| + |m.nodes| && CountOf(rows, REJECTED, Some(INGEST)) == |m.errors|
    requires CountOf(rows, DROPPED, Some(DEDUP)) == |m.nodes| - |Kept(hosts, m.nodes)|
    requires Agree(FlowOf(world, t, Kept(hosts, m.nodes)), rows)
             && Audits(world, t, hosts, m.errors, m.nodes, ranked, rows)
    requires RanksJoined(world, t, hosts, m.nodes, ranked)
    requires Spelled(world, t, hosts, m.errors, m.nodes, ranked, rows) && InOrder(rows)
    ensures RunAudited(world, t, hosts, m, ranked, rows)
  {
  }

  lemma MergeableKeys(world: World, t: TextFacts, hosts: HostFacts, errors: seq<IngestError>,
                      nodes: seq<IngestedNode>, ranked: seq<RankedItem>)
    requires Mergeable(world, t, hosts, errors, nodes, ranked)
    ensures DistinctKeys(nodes, NodeKey)
  {
  }

  lemma SortedAudits(world: World, t: TextFacts, hosts: HostFacts, errors: seq<IngestError>, nodes: seq<IngestedNode>,
                     ranked: seq<RankedItem>,
                     rows: seq<AuditRow>)
    requires Mergeable(world, t, hosts, errors, nodes, ranked)
    requires Coherent(MergedRun(world, t, hosts, errors, nodes, ranked))
    requires rows == Sort(Listing(MergedRun(world, t, hosts, errors, nodes, ranked)), RowLe)
    ensures Audits(world, t, hosts, errors, nodes, ranked, rows)
  {
    VerdictPerLine(world, t, hosts, errors, nodes, ranked);
    hide MergedRun, LineRow, RowLe, Sort, Mergeable;
    SortPermutes(Listing(MergedRun(world, t, hosts, errors, nodes, ranked)), RowLe);
  }

  lemma KeptAndDropped(hosts: HostFacts, nodes: seq<IngestedNode>)
    ensures |Kept(hosts, nodes)| + |DroppedLines(hosts, nodes)| == |nodes|
  {
    DedupConserves(hosts, nodes);
  }
}
