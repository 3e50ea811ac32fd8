/**
 * `_merge_node_reports`: a table of rows keyed by source and line number, filled from
 * the ingest result and then overwritten in place by each later stage.
 */
module Audit {
  import opened Common
  import opened Numbers
  import opened Model
  import opened Text
  import opened Ingest
  import opened Scoring
  import opened Sorting
  import opened Stages
  import opened Ranking

  type Key = (string, int)

  datatype RowStatus = OK | REJECTED | DROPPED | FAILED | UNRANKED

  /** `PipelineNodeReport`. */
  datatype AuditRow = AuditRow(
    origin: string, lineNo: int, protocol: Option<Protocol>, endpoint: string, status: RowStatus,
    stage: Option<Stage>, reason: string, score: Option<Float>, rank: Option<nat>, lineHash: string)

  /** An insertion-ordered dictionary of rows. */
  datatype Table = Table(order: seq<Key>, rows: map<Key, AuditRow>)

  /** A scored wrapper: the node it carries, and the scorer's verdict on it. */
  datatype Judged = Judged(wrapper: IngestedNode, outcome: ScoreOutcome)

  function NodeKey(w: IngestedNode): Key {
    (w.origin.name, w.lineNo)
  }

  function ReportKey(r: Report): Key {
    (r.origin, r.lineNo)
  }

  function RowKey(r: AuditRow): Key {
    (r.origin, r.lineNo)
  }

  function JudgedKey(j: Judged): Key {
    NodeKey(j.wrapper)
  }

  function RejectedRow(e: IngestError): AuditRow {
    AuditRow(e.originName, e.lineNo, None, "", REJECTED, Some(INGEST), e.reason, None, None, "")
  }

  function StartRow(w: IngestedNode): AuditRow {
    AuditRow(w.origin.name, w.lineNo, Some(w.node.protocol), EndpointText(w.node), OK, None, "", None, None, w.lineHash)
  }

  const EMPTY_ROW := AuditRow("", -1, None, "", OK, None, "", None, None, "")

  // ---------------------------------------------------------------------------
  // One update
  // ---------------------------------------------------------------------------

  function Put(t: Table, k: Key, row: AuditRow): Table {
    Table(if k in t.rows then t.order else t.order + [k], t.rows[k := row])
  }

  /** The first row for a key wins. */
  function Add(t: Table, row: AuditRow): Table {
    if RowKey(row) in t.rows then t else Put(t, RowKey(row), row)
  }

  function AsDropped(row: AuditRow): AuditRow {
    row.(status := DROPPED, stage := Some(DEDUP), reason := "duplicate")
  }

  function AsReported(rep: Report, row: AuditRow): AuditRow {
    if rep.failed then row.(status := FAILED, stage := Some(rep.stage), reason := rep.reason) else row
  }

  function AsJudged(j: Judged, row: AuditRow): AuditRow {
    if j.outcome.status == Scored then row
    else row.(status := UNRANKED, stage := Some(SCORE), reason := Trim(j.outcome.detail))
  }

  function AsRanked(item: RankedItem, row: AuditRow): AuditRow {
    row.(score := item.outcome.score, rank := Some(item.rank))
  }

  function Drop(t: Table, w: IngestedNode): Table {
    var k := NodeKey(w);
    Put(t, k, AsDropped(if k in t.rows then t.rows[k] else EMPTY_ROW))
  }

  /** A stage report; one about a line nobody ingested starts its own row. */
  function Report1(t: Table, rep: Report): Table {
    var k := ReportKey(rep);
    if k !in t.rows then
      Put(t, k, AuditRow(rep.origin, rep.lineNo, Some(rep.protocol), rep.endpoint, if rep.failed then FAILED else OK,
                         Some(rep.stage), rep.reason, None, None, rep.lineHash))
    else Put(t, k, AsReported(rep, t.rows[k]))
  }

  function Judge(t: Table, j: Judged): Table {
    var k := JudgedKey(j);
    if k in t.rows then Put(t, k, AsJudged(j, t.rows[k])) else t
  }

  /** `{node: wrapper}` over the scored triples; a later equal node wins. */
  function Wrappers(js: seq<Judged>): map<Node, IngestedNode> {
    if js == [] then map[] else Wrappers(js[..|js| - 1])[js[|js| - 1].wrapper.node := js[|js| - 1].wrapper]
  }

  function RankBack(wrappers: map<Node, IngestedNode>): (Table, RankedItem) -> Table {
    (t: Table, item: RankedItem) =>
      if item.node !in wrappers then t
      else
        var k := NodeKey(wrappers[item.node]);
        if k in t.rows then Put(t, k, AsRanked(item, t.rows[k])) else t
  }

  function Fold<X>(t: Table, xs: seq<X>, f: (Table, X) -> Table): Table {
    if xs == [] then t else f(Fold(t, xs[..|xs| - 1], f), xs[|xs| - 1])
  }

  /** All the updates, in the order the run makes them. */
  function Filled(errors: seq<IngestError>, nodes: seq<IngestedNode>): Table {
    Fold(Fold(Table([], map[]), Map(errors, RejectedRow), Add), Map(nodes, StartRow), Add)
  }

  function Reported(t: Table, dns: seq<Report>, tcp: seq<Report>, handshake: seq<Report>, measure: seq<Report>): Table {
    Fold(Fold(Fold(Fold(t, dns, Report1), tcp, Report1), handshake, Report1), measure, Report1)
  }

  function RowLe(a: AuditRow, b: AuditRow): bool {
    if a.origin != b.origin then TextLe(a.origin, b.origin)
    else if a.lineNo != b.lineNo then a.lineNo < b.lineNo
    else TextLe(a.lineHash, b.lineHash)
  }

  ghost predicate Coherent(t: Table) {
    (forall k :: k in t.order <==> k in t.rows) && forall i, j | 0 <= i < j < |t.order| :: t.order[i] != t.order[j]
  }

  function Listing(t: Table): seq<AuditRow>
    requires forall k | k in t.order :: k in t.rows
  {
    seq(|t.order|, i requires 0 <= i < |t.order| => t.rows[t.order[i]])
  }

  // ---------------------------------------------------------------------------
  // The merge
  // ---------------------------------------------------------------------------

  lemma FoldSnoc<X>(t: Table, xs: seq<X>, i: nat, f: (Table, X) -> Table)
    requires i < |xs|
    ensures Fold(t, xs[..i + 1], f) == f(Fold(t, xs[..i], f), xs[i])
  {
    assert xs[..i + 1][..i] == xs[..i];
  }

  /** One loop of the merge. */
  method Apply<X>(t: Table, xs: seq<X>, f: (Table, X) -> Table) returns (r: Table)
    ensures r == Fold(t, xs, f)
  {
    r := t;
    for i := 0 to |xs|
      invariant r == Fold(t, xs[..i], f)
    {
      FoldSnoc(t, xs, i, f);
      r := f(r, xs[i]);
    }
    assert xs[..|xs|] == xs;
  }

  method IndexWrappers(js: seq<Judged>) returns (m: map<Node, IngestedNode>)
    ensures m == Wrappers(js)
  {
    m := map[];
    for i := 0 to |js|
      invariant m == Wrappers(js[..i])
    {
      m := m[js[i].wrapper.node := js[i].wrapper];
      assert js[..i + 1][..i] == js[..i];
    }
    assert js[..|js|] == js;
  }

  ghost function Merge(errors: seq<IngestError>, nodes: seq<IngestedNode>, dropped: seq<IngestedNode>,
                       dns: seq<Report>, tcp: seq<Report>, handshake: seq<Report>, measure: seq<Report>,
                       js: seq<Judged>, ranked: seq<RankedItem>): Table
  {
    var t := Reported(Fold(Filled(errors, nodes), dropped, Drop), dns, tcp, handshake, measure);
    Fold(Fold(t, js, Judge), ranked, RankBack(Wrappers(js)))
  }

  method MergeNodeReports(errors: seq<IngestError>, nodes: seq<IngestedNode>, dropped: seq<IngestedNode>,
                          dns: seq<Report>, tcp: seq<Report>, handshake: seq<Report>, measure: seq<Report>,
                          js: seq<Judged>, ranked: seq<RankedItem>)
    returns (out: seq<AuditRow>)
    ensures var t := Merge(errors, nodes, dropped, dns, tcp, handshake, measure, js, ranked);
            Coherent(t) && out == Sort(Listing(t), RowLe)
  {
    var t := Apply(Table([], map[]), Map(errors, RejectedRow), Add);
    t := Apply(t, Map(nodes, StartRow), Add);
    t := Apply(t, dropped, Drop);
    t := Apply(t, dns, Report1);
    t := Apply(t, tcp, Report1);
    t := Apply(t, handshake, Report1);
    t := Apply(t, measure, Report1);
    t := Apply(t, js, Judge);
    var wrappers := IndexWrappers(js);
    t := Apply(t, ranked, RankBack(wrappers));
    MergeCoherent(errors, nodes, dropped, dns, tcp, handshake, measure, js, ranked);
    return Sort(Listing(t), RowLe);
  }

  lemma PutCoherent(t: Table, k: Key, row: AuditRow)
    requires Coherent(t)
    ensures Coherent(Put(t, k, row))
  {
  }

  lemma {:induction false} FoldCoherent<X>(t: Table, xs: seq<X>, f: (Table, X) -> Table)
    requires Coherent(t) && forall u, x :: Coherent(u) ==> Coherent(f(u, x))
    ensures Coherent(Fold(t, xs, f))
  {
    if xs != [] {
      FoldCoherent(t, xs[..|xs| - 1], f);
    }
  }

  lemma StepsCoherent(wrappers: map<Node, IngestedNode>)
    ensures forall t, row :: Coherent(t) ==> Coherent(Add(t, row))
    ensures forall t, w :: Coherent(t) ==> Coherent(Drop(t, w))
    ensures forall t, rep :: Coherent(t) ==> Coherent(Report1(t, rep))
    ensures forall t, j :: Coherent(t) ==> Coherent(Judge(t, j))
    ensures forall t, item :: Coherent(t) ==> Coherent(RankBack(wrappers)(t, item))
  {
    forall t, k, row | Coherent(t) ensures Coherent(Put(t, k, row)) {
      PutCoherent(t, k, row);
    }
    hide Coherent, Put;
    forall t, item | Coherent(t) ensures Coherent(RankBack(wrappers)(t, item)) {
      if item.node in wrappers && NodeKey(wrappers[item.node]) in t.rows {
        var k := NodeKey(wrappers[item.node]);
        assert RankBack(wrappers)(t, item) == Put(t, k, AsRanked(item, t.rows[k]));
      } else {
        assert RankBack(wrappers)(t, item) == t;
      }
    }
  }

  lemma MergeCoherent(errors: seq<IngestError>, nodes: seq<IngestedNode>, dropped: seq<IngestedNode>,
                      dns: seq<Report>, tcp: seq<Report>, handshake: seq<Report>, measure: seq<Report>,
                      js: seq<Judged>, ranked: seq<RankedItem>)
    ensures Coherent(Merge(errors, nodes, dropped, dns, tcp, handshake, measure, js, ranked))
  {
    var wrappers := Wrappers(js);
    StepsCoherent(wrappers);
    assert Coherent(Table([], map[]));
    hide Coherent, Add, Drop, Report1, Judge, RankBack, Fold;
    FoldCoherent(Table([], map[]), Map(errors, RejectedRow), Add);
    var t := Filled(errors, nodes);
    FoldCoherent(Fold(Table([], map[]), Map(errors, RejectedRow), Add), Map(nodes, StartRow), Add);
    FoldCoherent(t, dropped, Drop);
    var u := Fold(t, dropped, Drop);
    FoldCoherent(u, dns, Report1);
    FoldCoherent(Fold(u, dns, Report1), tcp, Report1);
    FoldCoherent(Fold(Fold(u, dns, Report1), tcp, Report1), handshake, Report1);
    FoldCoherent(Fold(Fold(Fold(u, dns, Report1), tcp, Report1), handshake, Report1), measure, Report1);
    var v := Reported(u, dns, tcp, handshake, measure);
    FoldCoherent(v, js, Judge);
    FoldCoherent(Fold(v, js, Judge), ranked, RankBack(wrappers));
  }
}
