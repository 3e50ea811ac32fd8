/** The rows of the audit, field by field: what the merged report says of every line, in literal terms. */
module AuditRows {
  import opened Common
  import opened Numbers
  import opened Model
  import opened Text
  import opened Ingest
  import opened Dedup
  import opened Scoring
  import opened Sorting
  import opened Stages
  import opened Ranking
  import opened Audit
  import opened Verdicts
  import opened Conservation
  import opened Totals

  // ---------------------------------------------------------------------------
  // How far a line got
  // ---------------------------------------------------------------------------

  /** The wrapper of a line with its node after one more stage. */
  function Moved(w: IngestedNode, step: Step): IngestedNode
    requires step.Keep?
  {
    w.(node := step.node)
  }

  /** `w` is lost at this stage for this reason, having passed those before. */
  ghost predicate LostIn(world: World, w: IngestedNode, stage: Stage, reason: string) {
    var dns := DnsStep(world, w);
    if dns.Lose? then stage == DNS && reason == dns.reason
    else
      var located := Moved(Moved(w, dns), GeoStep(world, Moved(w, dns)));
      var tcp := TcpStep(world, located);
      if tcp.Lose? then stage == Stage.TCP && reason == tcp.reason
      else
        var connected := Moved(located, tcp);
        var handshake := HandshakeStep(world, connected);
        if handshake.Lose? then stage == HANDSHAKE && reason == handshake.reason
        else
          var measure := MeasureStep(world, Moved(connected, handshake));
          measure.Lose? && stage == MEASURE && reason == measure.reason
  }

  /** `w` comes out of all live stages with node `n`. */
  ghost predicate ComesOut(world: World, w: IngestedNode, n: Node) {
    var dns := DnsStep(world, w);
    dns.Keep? &&
      var located := Moved(Moved(w, dns), GeoStep(world, Moved(w, dns)));
      var tcp := TcpStep(world, located);
      tcp.Keep? &&
        var connected := Moved(located, tcp);
        var handshake := HandshakeStep(world, connected);
        handshake.Keep? && MeasureStep(world, Moved(connected, handshake)) .Keep?
        && MeasureStep(world, Moved(connected, handshake)).node == n
  }

  lemma FateSpelled(world: World, w: IngestedNode)
    ensures forall stage, reason :: AfterMeasure(world, w) == LostAt(stage, reason) <==> LostIn(world, w, stage, reason)
    ensures forall n :: ComesOut(world, w, n) <==>
            AfterMeasure(world, w).Survived? && AfterMeasure(world, w).wrapper.node == n
  {
    hide DnsStep, TcpStep, HandshakeStep, MeasureStep, GeoName;
  }

  // ---------------------------------------------------------------------------
  // The rows
  // ---------------------------------------------------------------------------

  /** The rows of a run, for every line the ingest saw. */
  ghost predicate Spelled(world: World, t: TextFacts, f: HostFacts, errors: seq<IngestError>, nodes: seq<IngestedNode>,
                          ranked: seq<RankedItem>, rows: seq<AuditRow>) {
    && (forall e | e in errors :: RejectedIn(rows, e))
    && (forall w | w in DroppedLines(f, nodes) :: DroppedIn(rows, w))
    && (forall w, stage, reason | w in Kept(f, nodes) && LostIn(world, w, stage, reason) ::
        FailedIn(rows, w, stage, reason))
    && (forall w, n | w in Kept(f, nodes) && ComesOut(world, w, n) :: JudgedIn(rows, t, ranked, w, n))
    && (forall row | row in rows :: Accountable(ranked, row))
  }

  ghost predicate RejectedIn(rows: seq<AuditRow>, e: IngestError) {
    AuditRow(e.originName, e.lineNo, None, "", REJECTED, Some(INGEST), e.reason, None, None, "") in rows
  }

  ghost predicate DroppedIn(rows: seq<AuditRow>, w: IngestedNode) {
    AuditRow(w.origin.name, w.lineNo, Some(w.node.protocol), EndpointText(w.node), DROPPED, Some(DEDUP), "duplicate",
             None, None, w.lineHash) in rows
  }

  ghost predicate FailedIn(rows: seq<AuditRow>, w: IngestedNode, stage: Stage, reason: string) {
    AuditRow(w.origin.name, w.lineNo, Some(w.node.protocol), EndpointText(w.node), FAILED, Some(stage), reason,
             None, None, w.lineHash) in rows
  }

  /**
   * A line that came out with node `n`: unranked for the scorer's reason, ranked by the item
   * of `n`, or beyond Top-N.
   */
  ghost predicate JudgedIn(rows: seq<AuditRow>, t: TextFacts, ranked: seq<RankedItem>, w: IngestedNode, n: Node) {
    var o := ScoreNode(t, n);
    && (o.status != Scored ==>
          AuditRow(w.origin.name, w.lineNo, Some(w.node.protocol), EndpointText(w.node), UNRANKED, Some(SCORE),
                   Trim(o.detail), None, None, w.lineHash) in rows)
    && (forall item | item in ranked && item.node == n ::
          AuditRow(w.origin.name, w.lineNo, Some(w.node.protocol), EndpointText(w.node), OK, None, "",
                   item.outcome.score, Some(item.rank), w.lineHash) in rows)
    && (o.status == Scored && (forall item | item in ranked :: item.node != n) ==>
          AuditRow(w.origin.name, w.lineNo, Some(w.node.protocol), EndpointText(w.node), OK, None, "",
                   None, None, w.lineHash) in rows)
  }

  /** A row has a score and a rank only as some item has them, and then no failure of any kind. */
  ghost predicate Accountable(ranked: seq<RankedItem>, row: AuditRow) {
    && (row.score.Some? || row.rank.Some? ==>
          exists item :: item in ranked && row.score == item.outcome.score && row.rank == Some(item.rank))
    && (row.rank.Some? ==> row.status == OK && row.stage == None && row.reason == "")
  }

  lemma RowPresent(world: World, t: TextFacts, f: HostFacts, errors: seq<IngestError>, nodes: seq<IngestedNode>,
                   ranked: seq<RankedItem>, rows: seq<AuditRow>)
    requires Audits(world, t, f, errors, nodes, ranked, rows)
    ensures forall e | e in errors :: RejectedRow(e) in rows
    ensures forall w | w in nodes :: LineRow(world, t, f, nodes, ranked)(w) in rows
    ensures forall row | row in rows ::
              (exists e :: e in errors && row == RejectedRow(e))
              || (exists w :: w in nodes && row == LineRow(world, t, f, nodes, ranked)(w))
  {
    hide LineRow, RejectedRow;
    var a, b := Map(errors, RejectedRow), Map(nodes, LineRow(world, t, f, nodes, ranked));
    assert forall row :: row in rows <==> row in multiset(rows);
    assert forall row :: row in a + b <==> row in multiset(a + b);
    forall e | e in errors ensures RejectedRow(e) in rows {
      var i :| 0 <= i < |errors| && errors[i] == e;
      assert (a + b)[i] == RejectedRow(e);
    }
    forall w | w in nodes ensures LineRow(world, t, f, nodes, ranked)(w) in rows {
      var i :| 0 <= i < |nodes| && nodes[i] == w;
      assert (a + b)[|a| + i] == LineRow(world, t, f, nodes, ranked)(w);
    }
    forall row | row in rows
      ensures (exists e :: e in errors && row == RejectedRow(e))
              || (exists w :: w in nodes && row == LineRow(world, t, f, nodes, ranked)(w))
    {
      var i :| 0 <= i < |a + b| && (a + b)[i] == row;
      if i < |a| {
        assert errors[i] in errors;
      } else {
        assert nodes[i - |a|] in nodes;
      }
    }
  }

  /** The row of a kept line. */
  lemma KeptSpelled(world: World, t: TextFacts, ranked: seq<RankedItem>, rows: seq<AuditRow>, w: IngestedNode)
    requires KeptRow(world, t, ranked, w) in rows
    requires forall i, j | 0 <= i < j < |ranked| :: ranked[i].node != ranked[j].node
    requires forall item | item in ranked :: ScoreNode(t, item.node).status == Scored
    ensures forall stage, reason | LostIn(world, w, stage, reason) :: FailedIn(rows, w, stage, reason)
    ensures forall n | ComesOut(world, w, n) :: JudgedIn(rows, t, ranked, w, n)
  {
    FateSpelled(world, w);
    hide LostIn, ComesOut, AfterMeasure, ScoreNode, ItemFor;
    if AfterMeasure(world, w).Survived? {
      var n := AfterMeasure(world, w).wrapper.node;
      ItemForExactly(ranked, n);
      forall item | item in ranked && item.node == n ensures ItemFor(ranked, n) == Some(item) {
        var i :| 0 <= i < |ranked| && ranked[i] == item;
        ItemForItem(ranked, i);
      }
    }
  }

  lemma KeptAccountable(world: World, t: TextFacts, ranked: seq<RankedItem>, w: IngestedNode)
    ensures Accountable(ranked, KeptRow(world, t, ranked, w))
  {
    hide AfterMeasure, ScoreNode, ItemFor;
    if AfterMeasure(world, w).Survived? {
      ItemForExactly(ranked, AfterMeasure(world, w).wrapper.node);
    }
  }

  lemma RankedScored(world: World, t: TextFacts, f: HostFacts, errors: seq<IngestError>, nodes: seq<IngestedNode>,
                     ranked: seq<RankedItem>)
    requires Mergeable(world, t, f, errors, nodes, ranked)
    ensures forall i, j | 0 <= i < j < |ranked| :: ranked[i].node != ranked[j].node
    ensures forall item | item in ranked :: ScoreNode(t, item.node).status == Scored
  {
    hide Measured, Kept, ScoreNode, UniqueLines, DistinctKeys, DistinctNodes;
    var ws := Measured(world, Kept(f, nodes));
    forall item | item in ranked ensures ScoreNode(t, item.node).status == Scored {
      var i :| 0 <= i < |ranked| && ranked[i] == item;
      ItemForItem(ranked, i);
      RankedAreScored(t, ws, ranked, item.node);
    }
  }

  lemma KeptOrDropped(f: HostFacts, nodes: seq<IngestedNode>)
    requires DistinctKeys(nodes, NodeKey)
    ensures forall w :: w in nodes <==> w in Kept(f, nodes) || w in DroppedLines(f, nodes)
    ensures forall w | w in Kept(f, nodes) :: w !in DroppedLines(f, nodes)
  {
    Partition(f, nodes);
  }

  /** Every line has the row it deserves, and no row claims a score or a rank that no item gave. */
  lemma RowsSpelled(world: World, t: TextFacts, f: HostFacts, errors: seq<IngestError>, nodes: seq<IngestedNode>,
                    ranked: seq<RankedItem>, rows: seq<AuditRow>)
    requires Mergeable(world, t, f, errors, nodes, ranked) && Audits(world, t, f, errors, nodes, ranked, rows)
    ensures Spelled(world, t, f, errors, nodes, ranked, rows)
  {
    assert DistinctKeys(nodes, NodeKey);
    RowPresent(world, t, f, errors, nodes, ranked, rows);
    RankedScored(world, t, f, errors, nodes, ranked);
    KeptOrDropped(f, nodes);
    hide Mergeable, Audits, Kept, DroppedLines, KeptRow, LostIn, ComesOut, FailedIn, JudgedIn, Accountable, ScoreNode;
    forall w | w in Kept(f, nodes)
      ensures forall stage, reason | LostIn(world, w, stage, reason) :: FailedIn(rows, w, stage, reason)
      ensures forall n | ComesOut(world, w, n) :: JudgedIn(rows, t, ranked, w, n)
    {
      assert LineRow(world, t, f, nodes, ranked)(w) == KeptRow(world, t, ranked, w);
      KeptSpelled(world, t, ranked, rows, w);
    }
    forall row | row in rows ensures Accountable(ranked, row) {
      if e :| e in errors && row == RejectedRow(e) {
        PlainAccountable(ranked, row);
      } else {
        var w :| w in nodes && row == LineRow(world, t, f, nodes, ranked)(w);
        if w in DroppedLines(f, nodes) {
          PlainAccountable(ranked, row);
        } else {
          KeptAccountable(world, t, ranked, w);
        }
      }
    }
  }

  lemma PlainAccountable(ranked: seq<RankedItem>, row: AuditRow)
    requires row.score == None && row.rank == None
    ensures Accountable(ranked, row)
  {
  }

  // ---------------------------------------------------------------------------
  // Their order
  // ---------------------------------------------------------------------------

  /** Rows come by source, then by line, then by hash. */
  ghost predicate InOrder(rows: seq<AuditRow>) {
    forall i, j | 0 <= i < j < |rows| ::
      && TextLe(rows[i].origin, rows[j].origin)
      && (rows[i].origin == rows[j].origin ==> rows[i].lineNo <= rows[j].lineNo)
      && (rows[i].origin == rows[j].origin && rows[i].lineNo == rows[j].lineNo ==>
          TextLe(rows[i].lineHash, rows[j].lineHash))
  }

  lemma RowsPreordered()
    ensures Preorder(RowLe)
  {
    hide TextLe;
    forall x, y ensures RowLe(x, y) || RowLe(y, x) {
      TextLeTotal(x.origin, y.origin);
      TextLeTotal(x.lineHash, y.lineHash);
    }
    forall x, y, z | RowLe(x, y) && RowLe(y, z) ensures RowLe(x, z) {
      RowLeTrans(x, y, z);
    }
  }

  lemma RowLeTrans(x: AuditRow, y: AuditRow, z: AuditRow)
    requires RowLe(x, y) && RowLe(y, z)
    ensures RowLe(x, z)
  {
    hide TextLe;
    TextLeTotal(x.origin, y.origin);
    TextLeTotal(y.origin, z.origin);
    if x.origin == y.origin == z.origin {
      if x.lineNo == y.lineNo == z.lineNo {
        TextLeTrans(x.lineHash, y.lineHash, z.lineHash);
      }
    } else if x.origin != y.origin && y.origin != z.origin {
      TextLeTrans(x.origin, y.origin, z.origin);
    }
  }

  lemma SortedInOrder(rows: seq<AuditRow>)
    ensures InOrder(Sort(rows, RowLe))
  {
    RowsPreordered();
    SortAscends(rows, RowLe);
    hide TextLe, Sort, Preorder;
    var out := Sort(rows, RowLe);
    forall i, j | 0 <= i < j < |out|
      ensures && TextLe(out[i].origin, out[j].origin)
              && (out[i].origin == out[j].origin ==> out[i].lineNo <= out[j].lineNo)
              && (out[i].origin == out[j].origin && out[i].lineNo == out[j].lineNo ==>
                    TextLe(out[i].lineHash, out[j].lineHash))
    {
      assert RowLe(out[i], out[j]);
      TextLeTotal(out[i].origin, out[j].origin);
    }
  }

  lemma TableInOrder(t: Table, rows: seq<AuditRow>)
    requires Coherent(t) && rows == Sort(Listing(t), RowLe)
    ensures InOrder(rows)
  {
    SortedInOrder(Listing(t));
  }

  /** The endpoint text of a row: host and port, an IPv6 host in brackets, nothing without a host. */
  lemma EndpointTextReads(n: Node)
    ensures n.endpoint.host == "" ==> EndpointText(n) == ""
    ensures n.endpoint.host != "" && Free(n.endpoint.host, ':') ==>
              EndpointText(n) == n.endpoint.host + ":" + Integer(n.endpoint.port)
    ensures Has(n.endpoint.host, ':') ==> EndpointText(n) == "[" + n.endpoint.host + "]:" + Integer(n.endpoint.port)
  {
  }

  /** Reasons keep at most their first 120 characters. */
  lemma TrimKeepsStart(s: string)
    ensures |s| <= 120 ==> Trim(s) == s
    ensures |s| > 120 ==> |Trim(s)| == 120 && Trim(s) <= s
  {
  }

  // ---------------------------------------------------------------------------
  // Single updates, also of lines that no run reports on
  // ---------------------------------------------------------------------------

  /** Only the row of one line may differ, and a new line comes last. */
  ghost predicate Touches(t: Table, u: Table, k: Key) {
    && (forall j | j != k :: (j in u.rows <==> j in t.rows) && (j in t.rows ==> u.rows[j] == t.rows[j]))
    && k in u.rows && u.order == if k in t.rows then t.order else t.order + [k]
  }

  /** Adding rows: what is there stays, and the first row of a line is its row. */
  lemma {:induction false} FirstStays(t: Table, rows: seq<AuditRow>, k: Key)
    ensures var u := Fold(t, rows, Audit.Add);
            && (k in t.rows ==> k in u.rows && u.rows[k] == t.rows[k])
            && (k in u.rows ==> k in t.rows || exists i :: 0 <= i < |rows| && RowKey(rows[i]) == k)
            && (k !in t.rows ==>
                  forall i | 0 <= i < |rows| && RowKey(rows[i]) == k && forall j | 0 <= j < i :: RowKey(rows[j]) != k ::
                    k in u.rows && u.rows[k] == rows[i])
  {
    if rows != [] {
      var before := rows[..|rows| - 1];
      FirstStays(t, before, k);
      assert forall j | 0 <= j < |before| :: rows[j] == before[j];
      hide Fold;
      FoldAdd(t, rows);
    }
  }

  lemma FoldAdd(t: Table, rows: seq<AuditRow>)
    requires rows != []
    ensures Fold(t, rows, Audit.Add) == Audit.Add(Fold(t, rows[..|rows| - 1], Audit.Add), rows[|rows| - 1])
  {
  }

  /** Of several errors of one line the first is told, and a line with an error has no row as a node. */
  lemma FirstErrorWins(errors: seq<IngestError>, nodes: seq<IngestedNode>, i: nat)
    requires i < |errors|
    requires forall j | 0 <= j < i ::
               (errors[j].originName, errors[j].lineNo) != (errors[i].originName, errors[i].lineNo)
    ensures var k, t := (errors[i].originName, errors[i].lineNo), Filled(errors, nodes);
            && k in t.rows
            && t.rows[k] == AuditRow(errors[i].originName, errors[i].lineNo, None, "", REJECTED, Some(INGEST),
                                     errors[i].reason, None, None, "")
  {
    var k, rows := (errors[i].originName, errors[i].lineNo), Map(errors, RejectedRow);
    var started := Fold(Table([], map[]), rows, Audit.Add);
    FirstStays(Table([], map[]), rows, k);
    FirstStays(started, Map(nodes, StartRow), k);
    hide Fold, Audit.Add;
    assert rows[i] == RejectedRow(errors[i]) && forall j | 0 <= j < i :: rows[j] == RejectedRow(errors[j]);
  }

  /** Of several nodes of one line without error the first is told. */
  lemma FirstNodeWins(errors: seq<IngestError>, nodes: seq<IngestedNode>, i: nat)
    requires i < |nodes|
    requires forall j | 0 <= j < i ::
               (nodes[j].origin.name, nodes[j].lineNo) != (nodes[i].origin.name, nodes[i].lineNo)
    requires forall e | e in errors :: (e.originName, e.lineNo) != (nodes[i].origin.name, nodes[i].lineNo)
    ensures var w := nodes[i];
            var k, t := (w.origin.name, w.lineNo), Filled(errors, nodes);
            && k in t.rows
            && t.rows[k] == AuditRow(w.origin.name, w.lineNo, Some(w.node.protocol), Stages.EndpointText(w.node), OK,
                                     None, "", None, None, w.lineHash)
  {
    var k, rows, starts := (nodes[i].origin.name, nodes[i].lineNo), Map(errors, RejectedRow), Map(nodes, StartRow);
    var started := Fold(Table([], map[]), rows, Audit.Add);
    FirstStays(Table([], map[]), rows, k);
    FirstStays(started, starts, k);
    hide Fold, Audit.Add;
    assert forall j | 0 <= j < |rows| :: rows[j] == RejectedRow(errors[j]) && errors[j] in errors;
    assert starts[i] == StartRow(nodes[i]) && forall j | 0 <= j < i :: starts[j] == StartRow(nodes[j]);
  }

  /** A stage's report: a failure overwrites status, stage and reason; a line never heard of gets a row of its own. */
  lemma OneReport(t: Table, rep: Report)
    ensures var k, u := (rep.origin, rep.lineNo), Report1(t, rep);
            && Touches(t, u, k)
            && u.rows[k]
               == if k !in t.rows then
                    AuditRow(rep.origin, rep.lineNo, Some(rep.protocol), rep.endpoint,
                             if rep.failed then FAILED else OK, Some(rep.stage), rep.reason, None, None, rep.lineHash)
                  else if rep.failed then
                    t.rows[k].(status := FAILED, stage := Some(rep.stage), reason := rep.reason)
                  else t.rows[k]
  {
  }

  /** A duplicate: its row says so, even where there was none. */
  lemma OneDrop(t: Table, w: IngestedNode)
    ensures var k, u := (w.origin.name, w.lineNo), Drop(t, w);
            && Touches(t, u, k) && u.rows[k].status == DROPPED && u.rows[k].stage == Some(DEDUP)
            && u.rows[k].reason == "duplicate"
            && (k in t.rows ==> u.rows[k] == t.rows[k].(status := DROPPED, stage := Some(DEDUP), reason := "duplicate"))
            && (k !in t.rows ==>
                  u.rows[k] == AuditRow("", -1, None, "", DROPPED, Some(DEDUP), "duplicate", None, None, ""))
  {
  }

  /** The scorer's verdict: a line without a score is unranked for the reason given; lines unknown are ignored. */
  lemma OneJudgement(t: Table, j: Judged)
    ensures var k, u := (j.wrapper.origin.name, j.wrapper.lineNo), Judge(t, j);
            if k !in t.rows then u == t
            else
              && Touches(t, u, k)
              && u.rows[k]
                 == if j.outcome.status == Scored then t.rows[k]
                    else t.rows[k].(status := UNRANKED, stage := Some(SCORE), reason := Trim(j.outcome.detail))
  {
  }

  /** A ranked item: the row of the wrapper that carries its node gets its score and its rank, and nothing else. */
  lemma OneRank(t: Table, wrappers: map<Node, IngestedNode>, item: RankedItem)
    ensures var u := RankBack(wrappers)(t, item);
            if item.node !in wrappers then u == t
            else
              var k := (wrappers[item.node].origin.name, wrappers[item.node].lineNo);
              if k !in t.rows then u == t
              else
                && Touches(t, u, k)
                && u.rows[k] == t.rows[k].(score := item.outcome.score, rank := Some(item.rank))
  {
    var u := RankBack(wrappers)(t, item);
    if item.node in wrappers && NodeKey(wrappers[item.node]) in t.rows {
      var k := NodeKey(wrappers[item.node]);
      assert u == Put(t, k, AsRanked(item, t.rows[k]));
    } else {
      assert u == t;
    }
  }
}
