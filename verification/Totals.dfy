/** What the verdicts add up to: counters that agree with the stages, and ranks on the right lines. */
module Totals {
  import opened Common
  import opened Numbers
  import opened Model
  import opened Ingest
  import opened Dedup
  import opened Scoring
  import opened Sorting
  import opened Stages
  import opened Ranking
  import opened Audit
  import opened Verdicts
  import opened Conservation

  function Is(status: RowStatus, stage: Option<Stage>): AuditRow -> bool {
    (row: AuditRow) => row.status == status && row.stage == stage
  }

  /** How many rows have this status, decided by this stage. */
  function CountOf(rows: seq<AuditRow>, status: RowStatus, stage: Option<Stage>): nat {
    |Select(rows, Is(status, stage))|
  }

  lemma CountAppend(a: seq<AuditRow>, b: seq<AuditRow>, status: RowStatus, stage: Option<Stage>)
    ensures CountOf(a + b, status, stage) == CountOf(a, status, stage) + CountOf(b, status, stage)
  {
    SelectAppend(a, b, Is(status, stage));
  }

  lemma CountPermutes(a: seq<AuditRow>, b: seq<AuditRow>, status: RowStatus, stage: Option<Stage>)
    requires multiset(a) == multiset(b)
    ensures CountOf(a, status, stage) == CountOf(b, status, stage)
  {
    SelectPermutes(a, b, Is(status, stage));
    var x, y := Select(a, Is(status, stage)), Select(b, Is(status, stage));
    assert |multiset(x)| == |x| && |multiset(y)| == |y|;
  }

  lemma {:induction false} CountAll(rows: seq<AuditRow>, status: RowStatus, stage: Option<Stage>)
    requires forall r | r in rows :: r.status == status && r.stage == stage
    ensures CountOf(rows, status, stage) == |rows|
  {
    if rows != [] {
      CountAll(rows[1..], status, stage);
      assert rows == [rows[0]] + rows[1..];
    }
  }

  lemma {:induction false} CountNone(rows: seq<AuditRow>, status: RowStatus, stage: Option<Stage>)
    requires forall r | r in rows :: r.status != status || r.stage != stage
    ensures CountOf(rows, status, stage) == 0
  {
    if rows != [] {
      CountNone(rows[1..], status, stage);
      assert rows == [rows[0]] + rows[1..];
    }
  }

  // ---------------------------------------------------------------------------
  // Stage by stage
  // ---------------------------------------------------------------------------

  function Tail(fate: Fate): seq<IngestedNode> {
    if fate.Survived? then [fate.wrapper] else []
  }

  lemma TailStep(xs: seq<IngestedNode>, fate: Fate, step: IngestedNode -> Step, stage: Stage)
    ensures Survivors(xs + Tail(fate), step) == Survivors(xs, step) + Tail(Then(fate, step, stage))
  {
    if fate.Survived? {
      SurvivorsSnoc(xs, fate.wrapper, step);
    } else {
      assert xs + Tail(fate) == xs;
    }
  }

  /** One more kept line passes through every stage as its fate says. */
  lemma LiveSnoc(world: World, ws: seq<IngestedNode>, w: IngestedNode)
    ensures Resolved(world, ws + [w]) == Resolved(world, ws) + Tail(AfterDns(world, w))
    ensures Located(world, ws + [w]) == Located(world, ws) + Tail(AfterGeo(world, w))
    ensures Connected(world, ws + [w]) == Connected(world, ws) + Tail(AfterTcp(world, w))
    ensures Greeted(world, ws + [w]) == Greeted(world, ws) + Tail(AfterHandshake(world, w))
    ensures Measured(world, ws + [w]) == Measured(world, ws) + Tail(AfterMeasure(world, w))
  {
    assert [w] == Tail(Survived(w));
    hide Survivors, Tail, Then, DnsSteps, GeoSteps, TcpSteps, HandshakeSteps, MeasureSteps;
    TailStep(ws, Survived(w), DnsSteps(world), DNS);
    TailStep(Resolved(world, ws), AfterDns(world, w), GeoSteps(world), GEO);
    TailStep(Located(world, ws), AfterGeo(world, w), TcpSteps(world), Stage.TCP);
    TailStep(Connected(world, ws), AfterTcp(world, w), HandshakeSteps(world), HANDSHAKE);
    TailStep(Greeted(world, ws), AfterHandshake(world, w), MeasureSteps(world), MEASURE);
  }

  predicate JudgedScored(j: Judged) {
    j.outcome.status == Scored
  }

  /** How many measured wrappers the scorer scored. */
  function ScoredCount(t: TextFacts, ws: seq<IngestedNode>): nat {
    |Select(Map(ws, JudgeOf(t)), JudgedScored)|
  }

  lemma ScoredSnoc(t: TextFacts, ws: seq<IngestedNode>, v: IngestedNode)
    ensures ScoredCount(t, ws + [v]) == ScoredCount(t, ws) + (if ScoreNode(t, v.node).status == Scored then 1 else 0)
  {
    hide ScoreNode, Select;
    MapSnoc(ws, v, JudgeOf(t));
    SelectSnoc(Map(ws, JudgeOf(t)), JudgeOf(t)(v), JudgedScored);
  }

  /** What each stage of a run takes in and lets through. */
  datatype Flow = Flow(kept: nat, resolved: nat, located: nat, connected: nat, greeted: nat, measured: nat, scored: nat)

  ghost function FlowOf(world: World, t: TextFacts, ws: seq<IngestedNode>): Flow {
    Flow(|ws|, |Resolved(world, ws)|, |Located(world, ws)|, |Connected(world, ws)|, |Greeted(world, ws)|,
         |Measured(world, ws)|,
         ScoredCount(t, Measured(world, ws)))
  }

  /** The rows of kept lines agree with the stages. */
  ghost predicate Agree(flow: Flow, rows: seq<AuditRow>) {
    && CountOf(rows, FAILED, Some(DNS)) == flow.kept - flow.resolved
    && flow.resolved == flow.located
    && CountOf(rows, FAILED, Some(Stage.TCP)) == flow.located - flow.connected
    && CountOf(rows, FAILED, Some(HANDSHAKE)) == flow.connected - flow.greeted
    && CountOf(rows, FAILED, Some(MEASURE)) == flow.greeted - flow.measured
    && CountOf(rows, UNRANKED, Some(SCORE)) == flow.measured - flow.scored
    && CountOf(rows, OK, None) == flow.scored
  }

  /** Whether a row counts under a status and stage: 1 or 0. */
  function One(row: AuditRow, status: RowStatus, stage: Option<Stage>): nat {
    if row.status == status && row.stage == stage then 1 else 0
  }

  lemma CountSnoc(rows: seq<AuditRow>, row: AuditRow, status: RowStatus, stage: Option<Stage>)
    ensures CountOf(rows + [row], status, stage) == CountOf(rows, status, stage) + One(row, status, stage)
  {
    SelectSnoc(rows, row, Is(status, stage));
  }

  /** The flow of a single line. */
  ghost function FlowOfOne(world: World, t: TextFacts, w: IngestedNode): Flow {
    Flow(1, |Tail(AfterDns(world, w))|, |Tail(AfterGeo(world, w))|, |Tail(AfterTcp(world, w))|,
         |Tail(AfterHandshake(world, w))|,
         |Tail(AfterMeasure(world, w))|, ScoredCount(t, Tail(AfterMeasure(world, w))))
  }

  function Plus(a: Flow, b: Flow): Flow {
    Flow(a.kept + b.kept, a.resolved + b.resolved, a.located + b.located, a.connected + b.connected,
         a.greeted + b.greeted,
         a.measured + b.measured, a.scored + b.scored)
  }

  lemma FlowSnoc(world: World, t: TextFacts, ws: seq<IngestedNode>, w: IngestedNode)
    ensures FlowOf(world, t, ws + [w]) == Plus(FlowOf(world, t, ws), FlowOfOne(world, t, w))
  {
    LiveSnoc(world, ws, w);
    ScoredTail(t, Measured(world, ws), AfterMeasure(world, w));
    hide Resolved, Located, Connected, Greeted, Measured, AfterDns, AfterGeo, AfterTcp, AfterHandshake, AfterMeasure,
         ScoredCount, Tail;
  }

  lemma ScoredTail(t: TextFacts, ws: seq<IngestedNode>, fate: Fate)
    ensures ScoredCount(t, ws + Tail(fate)) == ScoredCount(t, ws) + ScoredCount(t, Tail(fate))
  {
    if fate.Survived? {
      ScoredSnoc(t, ws, fate.wrapper);
      ScoredSnoc(t, [], fate.wrapper);
      assert [] + [fate.wrapper] == [fate.wrapper];
    } else {
      assert ws + [] == ws;
    }
  }

  ghost predicate RowAgrees(one: Flow, row: AuditRow) {
    && One(row, FAILED, Some(DNS)) == one.kept - one.resolved
    && one.resolved == one.located
    && One(row, FAILED, Some(Stage.TCP)) == one.located - one.connected
    && One(row, FAILED, Some(HANDSHAKE)) == one.connected - one.greeted
    && One(row, FAILED, Some(MEASURE)) == one.greeted - one.measured
    && One(row, UNRANKED, Some(SCORE)) == one.measured - one.scored
    && One(row, OK, None) == one.scored
  }

  /** Lost at one of the four live stages, or judged: the row says which, and so do the lists. */
  lemma RowTellsFate(world: World, t: TextFacts, ranked: seq<RankedItem>, w: IngestedNode)
    ensures RowAgrees(FlowOfOne(world, t, w), KeptRow(world, t, ranked, w))
  {
    LocatedKeepsFate(world, w);
    ScoredOne(t, AfterMeasure(world, w));
    hide ScoreNode, DnsSteps, GeoStep, TcpSteps, HandshakeSteps, MeasureSteps, ItemFor, ScoredCount;
  }

  lemma ScoredOne(t: TextFacts, fate: Fate)
    ensures ScoredCount(t, Tail(fate)) == if fate.Survived? && ScoreNode(t, fate.wrapper.node).status == Scored then 1
                                          else 0
  {
    hide ScoreNode;
    if fate.Survived? {
      ScoredSnoc(t, [], fate.wrapper);
      assert [] + [fate.wrapper] == [fate.wrapper];
    }
  }

  lemma AgreeSnoc(flow: Flow, rows: seq<AuditRow>, one: Flow, row: AuditRow)
    requires Agree(flow, rows)
    requires RowAgrees(one, row)
    ensures Agree(Plus(flow, one), rows + [row])
  {
    hide CountOf, One;
    CountSnoc(rows, row, FAILED, Some(DNS));
    CountSnoc(rows, row, FAILED, Some(Stage.TCP));
    CountSnoc(rows, row, FAILED, Some(HANDSHAKE));
    CountSnoc(rows, row, FAILED, Some(MEASURE));
    CountSnoc(rows, row, UNRANKED, Some(SCORE));
    CountSnoc(rows, row, OK, None);
  }

  ghost function KeptRows(world: World, t: TextFacts, ranked: seq<RankedItem>): IngestedNode -> AuditRow {
    (w: IngestedNode) => KeptRow(world, t, ranked, w)
  }

  lemma NoneSurvive(step: IngestedNode -> Step)
    ensures Survivors([], step) == []
  {
  }

  lemma NoneScored(t: TextFacts)
    ensures ScoredCount(t, []) == 0
  {
    assert Map([], JudgeOf(t)) == [];
  }

  lemma NoneAgree(world: World, t: TextFacts)
    ensures Agree(FlowOf(world, t, []), [])
  {
    assert forall status, stage :: CountOf([], status, stage) == 0;
    hide DnsSteps, GeoSteps, TcpSteps, HandshakeSteps, MeasureSteps, Survivors, CountOf, ScoredCount;
    NoneSurvive(DnsSteps(world));
    NoneSurvive(GeoSteps(world));
    NoneSurvive(TcpSteps(world));
    NoneSurvive(HandshakeSteps(world));
    NoneSurvive(MeasureSteps(world));
    NoneScored(t);
  }

  lemma {:induction false} KeptAgree(world: World, t: TextFacts, ranked: seq<RankedItem>, ws: seq<IngestedNode>)
    ensures Agree(FlowOf(world, t, ws), Map(ws, KeptRows(world, t, ranked)))
  {
    hide Agree, KeptRow, FlowOf, FlowOfOne, RowAgrees;
    var g := KeptRows(world, t, ranked);
    if ws == [] {
      NoneAgree(world, t);
      assert Map(ws, g) == [];
    } else {
      var front, last := ws[..|ws| - 1], ws[|ws| - 1];
      KeptAgree(world, t, ranked, front);
      assert ws == front + [last];
      FlowSnoc(world, t, front, last);
      RowTellsFate(world, t, ranked, last);
      AgreeSnoc(FlowOf(world, t, front), Map(front, g), FlowOfOne(world, t, last), g(last));
      MapSnoc(front, last, g);
    }
  }

  // ---------------------------------------------------------------------------
  // The whole audit
  // ---------------------------------------------------------------------------

  lemma MapConcat<T, U>(a: seq<T>, b: seq<T>, g: T -> U)
    ensures Map(a + b, g) == Map(a, g) + Map(b, g)
  {
  }

  lemma MapAgrees<T, U>(ws: seq<T>, g: T -> U, h: T -> U)
    requires forall w | w in ws :: g(w) == h(w)
    ensures Map(ws, g) == Map(ws, h)
  {
  }

  lemma JoinMultisets<T>(out: seq<T>, a: seq<T>, b: seq<T>, c: seq<T>)
    requires multiset(out) == multiset(a + b) && multiset(b) == multiset(c)
    ensures multiset(out) == multiset(a + c)
  {
  }

  function DroppedRow(): IngestedNode -> AuditRow {
    (w: IngestedNode) => AsDropped(StartRow(w))
  }

  /** `out` lists the verdicts of all lines, in some order. */
  ghost predicate Audits(world: World, t: TextFacts, f: HostFacts, errors: seq<IngestError>, nodes: seq<IngestedNode>,
                         ranked: seq<RankedItem>,
                         out: seq<AuditRow>)
  {
    multiset(out) == multiset(Map(errors, RejectedRow) + Map(nodes, LineRow(world, t, f, nodes, ranked)))
  }

  /** The verdicts of parsed lines are those of the kept and of the dropped ones. */
  lemma ParsedByClass(world: World, t: TextFacts, f: HostFacts, nodes: seq<IngestedNode>, ranked: seq<RankedItem>)
    requires DistinctKeys(nodes, NodeKey)
    ensures multiset(Map(nodes, LineRow(world, t, f, nodes, ranked)))
            == multiset(Map(Kept(f, nodes), KeptRows(world, t, ranked)) + Map(DroppedLines(f, nodes), DroppedRow()))
  {
    var kept, dropped := Kept(f, nodes), DroppedLines(f, nodes);
    Partition(f, nodes);
    DedupConserves(f, nodes);
    hide KeptRow, StartRow, DistinctKeys, Kept, DroppedLines;
    var g := LineRow(world, t, f, nodes, ranked);
    forall w | w in kept ensures g(w) == KeptRows(world, t, ranked)(w) {
      assert w !in dropped;
    }
    MapAgrees(kept, g, KeptRows(world, t, ranked));
    MapAgrees(dropped, g, DroppedRow());
    hide LineRow, KeptRows, DroppedRow;
    MapConcat(kept, dropped, g);
    MapPermutes(nodes, kept + dropped, g);
  }

  lemma CountByClass(out: seq<AuditRow>, a: seq<AuditRow>, b: seq<AuditRow>, c: seq<AuditRow>, status: RowStatus,
                     stage: Option<Stage>)
    requires multiset(out) == multiset(a + (b + c))
    ensures CountOf(out, status, stage)
            == CountOf(a, status, stage) + CountOf(b, status, stage) + CountOf(c, status, stage)
  {
    CountPermutes(out, a + (b + c), status, stage);
    CountAppend(a, b + c, status, stage);
    CountAppend(b, c, status, stage);
  }

  /** Rejected, dropped and judged rows never look alike. */
  lemma AgreeByClass(flow: Flow, out: seq<AuditRow>, a: seq<AuditRow>, b: seq<AuditRow>, c: seq<AuditRow>)
    requires multiset(out) == multiset(a + (b + c)) && Agree(flow, b)
    requires (forall r | r in a :: r.status == REJECTED) && (forall r | r in c :: r.status == DROPPED)
    ensures Agree(flow, out)
  {
    CountByClass(out, a, b, c, FAILED, Some(DNS));
    CountByClass(out, a, b, c, FAILED, Some(Stage.TCP));
    CountByClass(out, a, b, c, FAILED, Some(HANDSHAKE));
    CountByClass(out, a, b, c, FAILED, Some(MEASURE));
    CountByClass(out, a, b, c, UNRANKED, Some(SCORE));
    CountByClass(out, a, b, c, OK, None);
    hide CountOf;
    CountNone(a, FAILED, Some(DNS)); CountNone(c, FAILED, Some(DNS));
    CountNone(a, FAILED, Some(Stage.TCP)); CountNone(c, FAILED, Some(Stage.TCP));
    CountNone(a, FAILED, Some(HANDSHAKE)); CountNone(c, FAILED, Some(HANDSHAKE));
    CountNone(a, FAILED, Some(MEASURE)); CountNone(c, FAILED, Some(MEASURE));
    CountNone(a, UNRANKED, Some(SCORE)); CountNone(c, UNRANKED, Some(SCORE));
    CountNone(a, OK, None); CountNone(c, OK, None);
  }

  lemma KeptRowStatus(world: World, t: TextFacts, ranked: seq<RankedItem>, w: IngestedNode)
    ensures KeptRow(world, t, ranked, w).status in {FAILED, UNRANKED, OK}
  {
    hide ScoreNode, AfterMeasure, ItemFor, StartRow;
    assert StartRow(w).status == OK by { StartsOk(w); }
  }

  lemma StartsOk(w: IngestedNode)
    ensures StartRow(w).status == OK
  {
  }

  lemma RowStatuses(world: World, t: TextFacts, ranked: seq<RankedItem>, errors: seq<IngestError>,
                    kept: seq<IngestedNode>, dropped: seq<IngestedNode>)
    ensures forall r | r in Map(errors, RejectedRow) :: r.status == REJECTED && r.stage == Some(INGEST)
    ensures forall r | r in Map(kept, KeptRows(world, t, ranked)) :: r.status in {FAILED, UNRANKED, OK}
    ensures forall r | r in Map(dropped, DroppedRow()) :: r.status == DROPPED && r.stage == Some(DEDUP)
  {
    hide KeptRow, StartRow;
    var b := Map(kept, KeptRows(world, t, ranked));
    forall r | r in b ensures r.status in {FAILED, UNRANKED, OK} {
      var i :| 0 <= i < |b| && b[i] == r;
      KeptRowStatus(world, t, ranked, kept[i]);
    }
  }

  /** Counters of three classes of rows whose statuses are known. */
  lemma ClassTotals(flow: Flow, out: seq<AuditRow>, a: seq<AuditRow>, b: seq<AuditRow>, c: seq<AuditRow>)
    requires multiset(out) == multiset(a + (b + c)) && Agree(flow, b) && |b| == flow.kept
    requires forall r | r in a :: r.status == REJECTED && r.stage == Some(INGEST)
    requires forall r | r in b :: r.status in {FAILED, UNRANKED, OK}
    requires forall r | r in c :: r.status == DROPPED && r.stage == Some(DEDUP)
    ensures |out| == |a| + |b| + |c| && Agree(flow, out)
    ensures CountOf(out, REJECTED, Some(INGEST)) == |a| && CountOf(out, DROPPED, Some(DEDUP)) == |c|
  {
    AgreeByClass(flow, out, a, b, c);
    hide CountOf, Agree;
    SameSize(out, a + (b + c));
    CountAll(a, REJECTED, Some(INGEST));
    CountAll(c, DROPPED, Some(DEDUP));
    CountNone(b, REJECTED, Some(INGEST));
    CountNone(c, REJECTED, Some(INGEST));
    CountNone(a, DROPPED, Some(DEDUP));
    CountNone(b, DROPPED, Some(DEDUP));
    CountByClass(out, a, b, c, REJECTED, Some(INGEST));
    CountByClass(out, a, b, c, DROPPED, Some(DEDUP));
  }

  /**
   * Line conservation: the audit has one row for every rejected or parsed line; rejected,
   * dropped, failed, unranked and scored rows are counted as the ingest, the dedup, each
   * live stage and the scorer counted them, and together they are all rows.
   */
  lemma LineConservation(world: World, t: TextFacts, f: HostFacts, errors: seq<IngestError>, nodes: seq<IngestedNode>,
                         ranked: seq<RankedItem>, out: seq<AuditRow>)
    requires DistinctKeys(nodes, NodeKey) && Audits(world, t, f, errors, nodes, ranked, out)
    ensures |out| == |errors| + |nodes|
    ensures CountOf(out, REJECTED, Some(INGEST)) == |errors|
    ensures CountOf(out, DROPPED, Some(DEDUP)) == |DroppedLines(f, nodes)|
    ensures Agree(FlowOf(world, t, Kept(f, nodes)), out)
    ensures |out| == CountOf(out, REJECTED, Some(INGEST)) + CountOf(out, DROPPED, Some(DEDUP))
                     + CountOf(out, FAILED, Some(DNS)) + CountOf(out, FAILED, Some(Stage.TCP))
                     + CountOf(out, FAILED, Some(HANDSHAKE)) + CountOf(out, FAILED, Some(MEASURE))
                     + CountOf(out, UNRANKED, Some(SCORE)) + CountOf(out, OK, None)
  {
    ParsedByClass(world, t, f, nodes, ranked);
    DedupConserves(f, nodes);
    var kept, dropped := Kept(f, nodes), DroppedLines(f, nodes);
    var a, b, c := Map(errors, RejectedRow), Map(kept, KeptRows(world, t, ranked)), Map(dropped, DroppedRow());
    KeptSize(world, t, kept);
    KeptAgree(world, t, ranked, kept);
    RowStatuses(world, t, ranked, errors, kept, dropped);
    hide Kept, DroppedLines, FlowOf, CountOf, KeptRows, LineRow, DroppedRow, DistinctKeys;
    JoinMultisets(out, a, Map(nodes, LineRow(world, t, f, nodes, ranked)), b + c);
    ClassTotals(FlowOf(world, t, kept), out, a, b, c);
  }

  lemma KeptSize(world: World, t: TextFacts, kept: seq<IngestedNode>)
    ensures FlowOf(world, t, kept).kept == |kept|
  {
  }

  lemma SameSize<T>(a: seq<T>, b: seq<T>)
    requires multiset(a) == multiset(b)
    ensures |a| == |b|
  {
    assert |multiset(a)| == |a| && |multiset(b)| == |b|;
  }

  // ---------------------------------------------------------------------------
  // Ranks
  // ---------------------------------------------------------------------------

  /** A measured wrapper is what became of exactly one kept line. */
  lemma MeasuredFrom(world: World, kept: seq<IngestedNode>, v: IngestedNode) returns (w: IngestedNode)
    requires DistinctKeys(kept, NodeKey) && v in Measured(world, kept)
    ensures w in kept && AfterMeasure(world, w) == Survived(v)
  {
    LiveDistinct(world, kept);
    LiveWithin(world, kept);
    w :| w in kept && NodeKey(w) == NodeKey(v);
    FateAlive(world, kept, w);
    hide Measured, AfterMeasure;
    var fate := AfterMeasure(world, w);
    if fate.Survived? {
      SameKeySameWrapper(Measured(world, kept), fate.wrapper, v);
    }
  }

  lemma FateAlive(world: World, kept: seq<IngestedNode>, w: IngestedNode)
    requires DistinctKeys(kept, NodeKey) && w in kept
    ensures Alive(Measured(world, kept), w, AfterMeasure(world, w))
  {
    LiveDistinct(world, kept);
    assert Alive(kept, w, Survived(w));
    hide DistinctKeys, Alive, DnsSteps, GeoSteps, TcpSteps, HandshakeSteps, MeasureSteps, Then, Survivors;
    AliveNext(kept, w, Survived(w), DnsSteps(world), DNS);
    AliveNext(Resolved(world, kept), w, AfterDns(world, w), GeoSteps(world), GEO);
    AliveNext(Located(world, kept), w, AfterGeo(world, w), TcpSteps(world), Stage.TCP);
    AliveNext(Connected(world, kept), w, AfterTcp(world, w), HandshakeSteps(world), HANDSHAKE);
    AliveNext(Greeted(world, kept), w, AfterHandshake(world, w), MeasureSteps(world), MEASURE);
  }

  /** The line `w` is the one whose node, after all live stages, the item ranks. */
  ghost predicate Ranks(world: World, f: HostFacts, nodes: seq<IngestedNode>, item: RankedItem, w: IngestedNode) {
    && w in Kept(f, nodes) && AfterMeasure(world, w).Survived? && AfterMeasure(world, w).wrapper.node == item.node
  }

  /** The row of `w` is the one that carries the item's score and rank. */
  ghost predicate Carries(world: World, t: TextFacts, f: HostFacts, nodes: seq<IngestedNode>, ranked: seq<RankedItem>,
                          item: RankedItem,
                          w: IngestedNode)
  {
    w in nodes && Ranks(world, f, nodes, item, w)
        && LineRow(world, t, f, nodes, ranked)(w) == AsRanked(item, StartRow(w))
  }

  ghost predicate Joined(world: World, t: TextFacts, f: HostFacts, nodes: seq<IngestedNode>, ranked: seq<RankedItem>,
                         item: RankedItem) {
    exists w :: Carries(world, t, f, nodes, ranked, item, w)
  }

  lemma ItemForItem(ranked: seq<RankedItem>, i: nat)
    requires i < |ranked| && forall i, j | 0 <= i < j < |ranked| :: ranked[i].node != ranked[j].node
    ensures ItemFor(ranked, ranked[i].node) == Some(ranked[i])
  {
    ItemForExactly(ranked, ranked[i].node);
    var found := ItemFor(ranked, ranked[i].node);
    assert ranked[i] in ranked;
    var j :| 0 <= j < |ranked| && ranked[j] == found.value;
    assert i == j;
  }

  /** Every ranked item is joined back to a scored line, whose row carries its score and rank. */
  lemma RankHasLine(world: World, t: TextFacts, f: HostFacts, errors: seq<IngestError>, nodes: seq<IngestedNode>,
                    ranked: seq<RankedItem>, i: nat)
    returns (w: IngestedNode)
    requires Mergeable(world, t, f, errors, nodes, ranked) && i < |ranked|
    ensures Carries(world, t, f, nodes, ranked, ranked[i], w)
  {
    var kept := Kept(f, nodes);
    Partition(f, nodes);
    var ws := Measured(world, kept);
    ItemForItem(ranked, i);
    hide Measured, AfterMeasure, ScoreNode, StartRow, ItemFor, Kept, DroppedLines;
    var v := JoinsBack(t, ws, ranked, i);
    w := MeasuredFrom(world, kept, v);
    assert w !in DroppedLines(f, nodes);
  }

  /** A row carries a rank only if an item ranks its line. */
  lemma LineHasRank(world: World, t: TextFacts, f: HostFacts, errors: seq<IngestError>, nodes: seq<IngestedNode>,
                    ranked: seq<RankedItem>, w: IngestedNode)
    returns (i: nat)
    requires Mergeable(world, t, f, errors, nodes, ranked) && w in nodes
             && LineRow(world, t, f, nodes, ranked)(w).rank.Some?
    ensures i < |ranked| && Ranks(world, f, nodes, ranked[i], w)
    ensures LineRow(world, t, f, nodes, ranked)(w).rank == Some(ranked[i].rank)
            && LineRow(world, t, f, nodes, ranked)(w).status == OK
  {
    Partition(f, nodes);
    hide Measured, AfterMeasure, ScoreNode;
    var v := AfterMeasure(world, w).wrapper;
    ItemForExactly(ranked, v.node);
    i :| i < |ranked| && ranked[i] == ItemFor(ranked, v.node).value;
  }

  /** Two lines ranked by one item are one line. */
  lemma OneLinePerRank(world: World, t: TextFacts, f: HostFacts, errors: seq<IngestError>, nodes: seq<IngestedNode>,
                       ranked: seq<RankedItem>,
                       item: RankedItem, u: IngestedNode, w: IngestedNode)
    requires Mergeable(world, t, f, errors, nodes, ranked) && Ranks(world, f, nodes, item, u)
             && Ranks(world, f, nodes, item, w)
    ensures u == w
  {
    var kept := Kept(f, nodes);
    Partition(f, nodes);
    FateAlive(world, kept, u);
    FateAlive(world, kept, w);
    hide AfterMeasure, Measured;
    SameNodeSameWrapper(Measured(world, kept), AfterMeasure(world, u).wrapper, AfterMeasure(world, w).wrapper);
    SameKeySameWrapper(kept, u, w);
  }

  /** Every rank has its line, every line with a rank has its item, and no two lines share one. */
  ghost predicate RanksJoined(world: World, t: TextFacts, f: HostFacts, nodes: seq<IngestedNode>,
                              ranked: seq<RankedItem>) {
    && (forall i | 0 <= i < |ranked| :: Joined(world, t, f, nodes, ranked, ranked[i]))
    && (forall w | w in nodes && LineRow(world, t, f, nodes, ranked)(w).rank.Some? ::
          var r := LineRow(world, t, f, nodes, ranked)(w).rank.value;
          1 <= r <= |ranked| && Ranks(world, f, nodes, ranked[r - 1], w))
    && (forall u, w | u in nodes && w in nodes && LineRow(world, t, f, nodes, ranked)(u).rank.Some?
          && LineRow(world, t, f, nodes, ranked)(u).rank == LineRow(world, t, f, nodes, ranked)(w).rank :: u == w)
  }

  /**
   * The join-back is a bijection: with ranks 1..k in the list, every rank is carried by
   * the row of one scored line and of that line only, and no other row carries a rank.
   */
  lemma RankBijection(world: World, t: TextFacts, f: HostFacts, errors: seq<IngestError>, nodes: seq<IngestedNode>,
                      ranked: seq<RankedItem>)
    requires Mergeable(world, t, f, errors, nodes, ranked) && forall i | 0 <= i < |ranked| :: ranked[i].rank == i + 1
    ensures RanksJoined(world, t, f, nodes, ranked)
  {
    hide LineRow, Ranks, Mergeable, StartRow, AsRanked, Carries;
    forall i | 0 <= i < |ranked|
      ensures Joined(world, t, f, nodes, ranked, ranked[i])
    {
      var w := RankHasLine(world, t, f, errors, nodes, ranked, i);
    }
    forall w | w in nodes && LineRow(world, t, f, nodes, ranked)(w).rank.Some?
      ensures 1 <= LineRow(world, t, f, nodes, ranked)(w).rank.value <= |ranked|
      ensures Ranks(world, f, nodes, ranked[LineRow(world, t, f, nodes, ranked)(w).rank.value - 1], w)
    {
      var i := LineHasRank(world, t, f, errors, nodes, ranked, w);
    }
    forall u, w | u in nodes && w in nodes && LineRow(world, t, f, nodes, ranked)(u).rank.Some?
                  && LineRow(world, t, f, nodes, ranked)(u).rank == LineRow(world, t, f, nodes, ranked)(w).rank
      ensures u == w
    {
      SameRankSameLine(world, t, f, errors, nodes, ranked, u, w);
    }
  }

  lemma SameRankSameLine(world: World, t: TextFacts, f: HostFacts, errors: seq<IngestError>, nodes: seq<IngestedNode>,
                         ranked: seq<RankedItem>,
                         u: IngestedNode, w: IngestedNode)
    requires Mergeable(world, t, f, errors, nodes, ranked) && forall i | 0 <= i < |ranked| :: ranked[i].rank == i + 1
    requires u in nodes && w in nodes
    requires var row := LineRow(world, t, f, nodes, ranked); row(u).rank.Some? && row(u).rank == row(w).rank
    ensures u == w
  {
    hide LineRow, Ranks, Mergeable, StartRow;
    var i := LineHasRank(world, t, f, errors, nodes, ranked, u);
    var j := LineHasRank(world, t, f, errors, nodes, ranked, w);
    assert ranked[i].rank == ranked[j].rank;
    OneLinePerRank(world, t, f, errors, nodes, ranked, ranked[i], u, w);
  }
}
