/**
 * The audit of a whole run: one row for every line, counted consistently with the stages,
 * and ranks joined back to the right lines.
 */
module Conservation {
  import opened Common
  import opened Numbers
  import opened Model
  import opened Ingest
  import opened Dedup
  import opened Scoring
  import opened Sorting
  import opened Stages
  import opened Ranking
  import opened Audit
  import opened Verdicts

  /** No two ingested lines, rejected or parsed, have the same source name and line number. */
  ghost predicate UniqueLines(errors: seq<IngestError>, nodes: seq<IngestedNode>) {
    && DistinctKeys(Map(errors, RejectedRow), RowKey)
    && DistinctKeys(Map(nodes, StartRow), RowKey)
    && forall e, w | e in errors && w in nodes :: (e.originName, e.lineNo) != NodeKey(w)
  }

  /** Every node is what the parser makes of its own raw line. */
  ghost predicate Witnessed(parse: string -> Option<Node>, nodes: seq<IngestedNode>) {
    forall w | w in nodes :: parse(w.node.rawUrl) == Some(w.node)
  }

  ghost function Kept(f: HostFacts, nodes: seq<IngestedNode>): seq<IngestedNode> {
    Deduped(f, nodes).kept
  }

  ghost function DroppedLines(f: HostFacts, nodes: seq<IngestedNode>): seq<IngestedNode> {
    Deduped(f, nodes).dropped
  }

  ghost function Judgements(world: World, t: TextFacts, f: HostFacts, nodes: seq<IngestedNode>): seq<Judged> {
    Map(Measured(world, Kept(f, nodes)), JudgeOf(t))
  }

  /** The one row a parsed line deserves. */
  ghost function LineRow(world: World, t: TextFacts, f: HostFacts, nodes: seq<IngestedNode>,
                         ranked: seq<RankedItem>): IngestedNode -> AuditRow {
    (w: IngestedNode) => if w in DroppedLines(f, nodes) then AsDropped(StartRow(w)) else KeptRow(world, t, ranked, w)
  }

  // ---------------------------------------------------------------------------
  // Distinct lines
  // ---------------------------------------------------------------------------

  /** Deduplication partitions the lines. */
  lemma Partition(f: HostFacts, nodes: seq<IngestedNode>)
    requires DistinctKeys(nodes, NodeKey)
    ensures DistinctKeys(Kept(f, nodes), NodeKey) && DistinctKeys(DroppedLines(f, nodes), NodeKey)
    ensures forall w :: w in nodes <==> w in Kept(f, nodes) || w in DroppedLines(f, nodes)
    ensures forall u, v | u in Kept(f, nodes) && v in DroppedLines(f, nodes) :: NodeKey(u) != NodeKey(v)
  {
    var kept, dropped := Kept(f, nodes), DroppedLines(f, nodes);
    NoRepeats(nodes);
    DedupConserves(f, nodes);
    hide Kept, DroppedLines, Deduped;
    Parts(nodes, kept, dropped);
  }

  lemma Parts(nodes: seq<IngestedNode>, kept: seq<IngestedNode>, dropped: seq<IngestedNode>)
    requires DistinctKeys(nodes, NodeKey) && (forall x :: multiset(nodes)[x] <= 1)
    requires multiset(kept) + multiset(dropped) == multiset(nodes)
    ensures DistinctKeys(kept, NodeKey) && DistinctKeys(dropped, NodeKey)
    ensures forall w :: w in nodes <==> w in kept || w in dropped
    ensures forall u, v | u in kept && v in dropped :: NodeKey(u) != NodeKey(v)
  {
    assert forall x :: multiset(kept)[x] + multiset(dropped)[x] == multiset(nodes)[x];
    assert forall x :: x in nodes <==> multiset(nodes)[x] > 0;
    assert forall x :: x in kept <==> multiset(kept)[x] > 0;
    assert forall x :: x in dropped <==> multiset(dropped)[x] > 0;
    SubsetDistinct(nodes, kept);
    SubsetDistinct(nodes, dropped);
    forall u, v | u in kept && v in dropped ensures NodeKey(u) != NodeKey(v) {
      if NodeKey(u) == NodeKey(v) {
        SameKeySameWrapper(nodes, u, v);
      }
    }
  }

  lemma SubsetDistinct(nodes: seq<IngestedNode>, part: seq<IngestedNode>)
    requires DistinctKeys(nodes, NodeKey) && (forall x :: multiset(part)[x] <= 1) && forall x | x in part :: x in nodes
    ensures DistinctKeys(part, NodeKey)
  {
    forall i, j | 0 <= i < j < |part| ensures NodeKey(part[i]) != NodeKey(part[j]) {
      if part[i] == part[j] {
        Repeats(part, i, j);
      } else if NodeKey(part[i]) == NodeKey(part[j]) {
        SameKeySameWrapper(nodes, part[i], part[j]);
      }
    }
  }

  // ---------------------------------------------------------------------------
  // Distinct scored nodes
  // ---------------------------------------------------------------------------

  /** Each wrapper still carries the raw line of the wrapper with its key. */
  ghost predicate Traced(vs: seq<IngestedNode>, ws: seq<IngestedNode>) {
    forall v | v in vs :: exists w :: w in ws && NodeKey(w) == NodeKey(v) && w.node.rawUrl == v.node.rawUrl
  }

  ghost predicate KeepsRaw(step: IngestedNode -> Step) {
    forall w :: step(w).Keep? ==> step(w).node.rawUrl == w.node.rawUrl
  }

  lemma SurvivorsTraced(vs: seq<IngestedNode>, ws: seq<IngestedNode>, step: IngestedNode -> Step)
    requires Traced(vs, ws) && KeepsRaw(step)
    ensures Traced(Survivors(vs, step), ws)
  {
    forall v | v in Survivors(vs, step)
      ensures exists w :: w in ws && NodeKey(w) == NodeKey(v) && w.node.rawUrl == v.node.rawUrl
    {
      SurvivorFrom(vs, step, v);
      var y :| y in vs && step(y).Keep? && v == y.(node := step(y).node);
    }
  }

  lemma StagesKeepRaw(world: World)
    ensures KeepsRaw(DnsSteps(world)) && KeepsRaw(GeoSteps(world)) && KeepsRaw(TcpSteps(world))
    ensures KeepsRaw(HandshakeSteps(world)) && KeepsRaw(MeasureSteps(world))
  {
    hide DnsStep, GeoStep, TcpStep, HandshakeStep, MeasureStep;
    forall w ensures DnsSteps(world)(w).Keep? ==> DnsSteps(world)(w).node.rawUrl == w.node.rawUrl {
      if DnsSteps(world)(w).Keep? {
        DnsKeepsConfig(world, w);
      }
    }
    forall w ensures GeoSteps(world)(w).Keep? ==> GeoSteps(world)(w).node.rawUrl == w.node.rawUrl {
      GeoKeepsConfig(world, w);
    }
    forall w ensures TcpSteps(world)(w).Keep? ==> TcpSteps(world)(w).node.rawUrl == w.node.rawUrl {
      if TcpSteps(world)(w).Keep? {
        TcpKeepsConfig(world, w);
      }
    }
    forall w ensures HandshakeSteps(world)(w).Keep? ==> HandshakeSteps(world)(w).node.rawUrl == w.node.rawUrl {
      HandshakeKeepsConfig(world, w);
    }
    forall w ensures MeasureSteps(world)(w).Keep? ==> MeasureSteps(world)(w).node.rawUrl == w.node.rawUrl {
      MeasureKeepsConfig(world, w);
    }
  }

  lemma MeasuredTraced(world: World, kept: seq<IngestedNode>)
    ensures Traced(Measured(world, kept), kept)
  {
    assert Traced(kept, kept);
    StagesKeepRaw(world);
    hide Traced, KeepsRaw, Survivors, DnsSteps, GeoSteps, TcpSteps, HandshakeSteps, MeasureSteps;
    SurvivorsTraced(kept, kept, DnsSteps(world));
    SurvivorsTraced(Resolved(world, kept), kept, GeoSteps(world));
    SurvivorsTraced(Located(world, kept), kept, TcpSteps(world));
    SurvivorsTraced(Connected(world, kept), kept, HandshakeSteps(world));
    SurvivorsTraced(Greeted(world, kept), kept, MeasureSteps(world));
  }

  lemma KeptApart(f: HostFacts, nodes: seq<IngestedNode>, i: nat, j: nat)
    requires i < j < |Kept(f, nodes)|
    ensures Kept(f, nodes)[i].node != Kept(f, nodes)[j].node
  {
    KeptDistinct(f, nodes, |nodes|);
    assert DedupKey(f, Kept(f, nodes)[i].node) != DedupKey(f, Kept(f, nodes)[j].node);
  }

  lemma KeptNodesDiffer(f: HostFacts, nodes: seq<IngestedNode>, u: IngestedNode, v: IngestedNode)
    requires u in Kept(f, nodes) && v in Kept(f, nodes) && u != v
    ensures u.node != v.node
  {
    hide Kept;
    var kept := Kept(f, nodes);
    var i :| 0 <= i < |kept| && kept[i] == u;
    var j :| 0 <= j < |kept| && kept[j] == v;
    if i < j {
      KeptApart(f, nodes, i, j);
    } else {
      KeptApart(f, nodes, j, i);
    }
  }

  lemma KeptAreNodes(f: HostFacts, nodes: seq<IngestedNode>, w: IngestedNode)
    requires w in Kept(f, nodes)
    ensures w in nodes
  {
    KeptExactly(f, nodes, |nodes|, w);
  }

  lemma TracedApart(f: HostFacts, parse: string -> Option<Node>, nodes: seq<IngestedNode>, x: IngestedNode,
                    y: IngestedNode)
    requires Witnessed(parse, nodes) && Traced([x, y], Kept(f, nodes)) && NodeKey(x) != NodeKey(y)
    ensures x.node != y.node
  {
    hide Kept;
    assert x in [x, y] && y in [x, y];
    var u :| u in Kept(f, nodes) && NodeKey(u) == NodeKey(x) && u.node.rawUrl == x.node.rawUrl;
    var v :| v in Kept(f, nodes) && NodeKey(v) == NodeKey(y) && v.node.rawUrl == y.node.rawUrl;
    KeptNodesDiffer(f, nodes, u, v);
    KeptAreNodes(f, nodes, u);
    KeptAreNodes(f, nodes, v);
  }

  /** What reaches the scorer are pairwise different nodes: dedup keys and raw lines tell them apart. */
  lemma MeasuredNodesDistinct(world: World, f: HostFacts, parse: string -> Option<Node>, nodes: seq<IngestedNode>)
    requires DistinctKeys(nodes, NodeKey) && Witnessed(parse, nodes)
    ensures DistinctNodes(Measured(world, Kept(f, nodes)))
  {
    Partition(f, nodes);
    LiveDistinct(world, Kept(f, nodes));
    MeasuredTraced(world, Kept(f, nodes));
    TracedDistinct(f, parse, nodes, Measured(world, Kept(f, nodes)));
    hide *;
  }

  lemma TracedDistinct(f: HostFacts, parse: string -> Option<Node>, nodes: seq<IngestedNode>, ws: seq<IngestedNode>)
    requires Witnessed(parse, nodes) && Traced(ws, Kept(f, nodes)) && DistinctKeys(ws, NodeKey)
    ensures DistinctNodes(ws)
  {
    hide Kept, Witnessed;
    forall i, j | 0 <= i < j < |ws| ensures ws[i].node != ws[j].node {
      assert ws[i] in ws && ws[j] in ws;
      TracedApart(f, parse, nodes, ws[i], ws[j]);
    }
  }

  lemma PairsDiffer(js: seq<Judged>, ws: seq<IngestedNode>, t: TextFacts)
    requires js == Map(ws, JudgeOf(t)) && DistinctNodes(ws)
    ensures forall i, j | 0 <= i < j < |js| :: Map(js, CandidateOf)[i] != Map(js, CandidateOf)[j]
    ensures forall c, d | c in Map(js, CandidateOf) && d in Map(js, CandidateOf) && c.node == d.node :: c == d
  {
    hide ScoreNode;
    var cs := Map(js, CandidateOf);
    assert forall i | 0 <= i < |cs| :: cs[i].node == ws[i].node && cs[i].outcome == ScoreNode(t, ws[i].node);
  }

  lemma EntriesScored(repr: Float -> string, cs: seq<Candidate>)
    ensures multiset(Map(Ranked(repr, cs), Entry)) == multiset(Select(cs, IsScored))
  {
    SortedPermutations(repr, cs);
  }

  /** Different candidates are ranked as different entries. */
  lemma EntriesOnce(repr: Float -> string, cs: seq<Candidate>)
    requires forall i, j | 0 <= i < j < |cs| :: cs[i] != cs[j]
    ensures var entries := Map(Ranked(repr, cs), Entry);
            forall i, j | 0 <= i < j < |entries| :: entries[i] != entries[j]
  {
    SelectOnce(cs, IsScored);
    EntriesScored(repr, cs);
    hide *;
    SingleOccurrences(Map(Ranked(repr, cs), Entry));
  }

  lemma RowsJoin(repr: Float -> string, t: TextFacts, ws: seq<IngestedNode>)
    requires DistinctNodes(ws)
    ensures var js := Map(ws, JudgeOf(t));
            var rows := Ranked(repr, Map(js, CandidateOf));
            && (forall i | 0 <= i < |rows| :: HoldsScored(js, rows[i].node))
            && (forall i, j | 0 <= i < j < |rows| :: rows[i].node != rows[j].node)
  {
    var js := Map(ws, JudgeOf(t));
    var cs := Map(js, CandidateOf);
    PairsDiffer(js, ws, t);
    EntriesOnce(repr, cs);
    hide Ranked, JudgeOf, RankedRow, IsScored, HoldsScored;
    var rows := Ranked(repr, cs);
    var entries := Map(rows, Entry);
    forall i | 0 <= i < |rows| ensures entries[i] in cs && HoldsScored(js, rows[i].node) {
      RowsKeyed(repr, cs, i);
      CandidateScored(js, entries[i]);
    }
    forall i, j | 0 <= i < j < |rows| ensures rows[i].node != rows[j].node {
      assert entries[i] != entries[j] && entries[i] in cs && entries[j] in cs;
    }
  }

  /** The full ranking of the scored nodes satisfies what the join-back needs, and so does any Top-N cut. */
  lemma RankingJoins(repr: Float -> string, t: TextFacts, ws: seq<IngestedNode>, n: Option<int>)
    requires DistinctNodes(ws)
    ensures var js := Map(ws, JudgeOf(t)); RankedFrom(js, RankingOf(repr, Map(js, CandidateOf), n).ranked)
  {
    RowsJoin(repr, t, ws);
    CutJoins(repr, Map(ws, JudgeOf(t)), Map(Map(ws, JudgeOf(t)), CandidateOf), n);
    hide *;
  }

  lemma CutJoins(repr: Float -> string, js: seq<Judged>, cs: seq<Candidate>, n: Option<int>)
    requires forall i | 0 <= i < |Ranked(repr, cs)| :: HoldsScored(js, Ranked(repr, cs)[i].node)
    requires forall i, j | 0 <= i < j < |Ranked(repr, cs)| :: Ranked(repr, cs)[i].node != Ranked(repr, cs)[j].node
    ensures RankedFrom(js, RankingOf(repr, cs, n).ranked)
  {
    hide Ranked, HoldsScored, Unranked;
    var rows, ranked := Ranked(repr, cs), RankingOf(repr, cs, n).ranked;
    assert forall i | 0 <= i < |ranked| :: ranked[i].node == rows[i].node;
  }

  lemma CandidateScored(js: seq<Judged>, c: Candidate)
    requires c in Map(js, CandidateOf) && IsScored(c)
    ensures HoldsScored(js, c.node)
  {
    var cs := Map(js, CandidateOf);
    var i :| 0 <= i < |cs| && cs[i] == c;
    assert js[i] in js;
  }

  // ---------------------------------------------------------------------------
  // One verdict per line
  // ---------------------------------------------------------------------------

  /** The table the merge fills, given what the stages reported. */
  ghost function MergedRun(world: World, t: TextFacts, f: HostFacts, errors: seq<IngestError>, nodes: seq<IngestedNode>,
                           ranked: seq<RankedItem>): Table
  {
    var kept := Kept(f, nodes);
    Audit.Merge(errors, nodes, DroppedLines(f, nodes),
          Reports(kept, DNS, DnsSteps(world)), Reports(Located(world, kept), Stage.TCP, TcpSteps(world)),
          Reports(Connected(world, kept), HANDSHAKE, HandshakeSteps(world)),
          Reports(Greeted(world, kept), MEASURE, MeasureSteps(world)),
          Judgements(world, t, f, nodes), ranked)
  }

  function ErrorKey(e: IngestError): Key {
    (e.originName, e.lineNo)
  }

  /** Rejected and parsed lines, each with its first row. */
  ghost predicate Opened(errors: seq<IngestError>, nodes: seq<IngestedNode>, t: Table) {
    && Coherent(t) && t.order == Map(errors, ErrorKey) + Map(nodes, NodeKey)
    && (forall e | e in errors :: ErrorKey(e) in t.rows && t.rows[ErrorKey(e)] == RejectedRow(e))
    && (forall w | w in nodes :: NodeKey(w) in t.rows && t.rows[NodeKey(w)] == StartRow(w))
  }

  lemma KeysSame(errors: seq<IngestError>, nodes: seq<IngestedNode>)
    ensures Map(Map(errors, RejectedRow), RowKey) == Map(errors, ErrorKey)
    ensures Map(Map(nodes, StartRow), RowKey) == Map(nodes, NodeKey)
  {
  }

  lemma RejectedRows(errors: seq<IngestError>)
    requires DistinctKeys(Map(errors, RejectedRow), RowKey)
    ensures Opened(errors, [], Fold(Table([], map[]), Map(errors, RejectedRow), Audit.Add))
  {
    var es := Map(errors, RejectedRow);
    var none := Table([], map[]);
    FoldAdds(none, es);
    KeysSame(errors, []);
    var t := Fold(none, es, Audit.Add);
    hide Fold, Coherent;
    assert none.order + Map(es, RowKey) == Map(errors, ErrorKey) + Map([], NodeKey);
    forall e | e in errors ensures ErrorKey(e) in t.rows && t.rows[ErrorKey(e)] == RejectedRow(e) {
      var i :| 0 <= i < |errors| && errors[i] == e;
      assert RowKey(es[i]) in t.rows;
    }
  }

  lemma FilledRows(errors: seq<IngestError>, nodes: seq<IngestedNode>)
    requires UniqueLines(errors, nodes)
    ensures Opened(errors, nodes, Filled(errors, nodes))
  {
    RejectedRows(errors);
    KeysSame(errors, nodes);
    var t := Fold(Table([], map[]), Map(errors, RejectedRow), Audit.Add);
    var ws := Map(nodes, StartRow);
    forall i | 0 <= i < |ws| ensures RowKey(ws[i]) !in t.rows {
      assert RowKey(ws[i]) == NodeKey(nodes[i]) && nodes[i] in nodes;
      forall k | k in t.order ensures RowKey(ws[i]) != k {
        var j :| 0 <= j < |t.order| && t.order[j] == k;
        assert k == ErrorKey(errors[j]) && errors[j] in errors;
      }
    }
    FoldAdds(t, ws);
    FilledFrom(errors, nodes, t, Filled(errors, nodes));
  }

  lemma FilledFrom(errors: seq<IngestError>, nodes: seq<IngestedNode>, t: Table, u: Table)
    requires Opened(errors, [], t) && Appended(t, Map(nodes, StartRow), u)
    ensures Opened(errors, nodes, u)
  {
    hide Coherent, RejectedRow;
    KeysSame(errors, nodes);
    var ws := Map(nodes, StartRow);
    assert Map(errors, ErrorKey) + Map([], NodeKey) + Map(nodes, NodeKey)
           == Map(errors, ErrorKey) + Map(nodes, NodeKey);
    forall w | w in nodes ensures NodeKey(w) in u.rows && u.rows[NodeKey(w)] == StartRow(w) {
      var i :| 0 <= i < |nodes| && nodes[i] == w;
      assert RowKey(ws[i]) in u.rows;
    }
  }

  /** Adding rows gives one entry for each only if no key repeats. */
  lemma {:induction false} AddsCount(t: Table, rows: seq<AuditRow>)
    ensures var u := Fold(t, rows, Audit.Add);
            && |u.order| <= |t.order| + |rows|
            && (forall k | k in t.rows :: k in u.rows) && (forall i | 0 <= i < |rows| :: RowKey(rows[i]) in u.rows)
            && (|u.order| == |t.order| + |rows| ==>
                  DistinctKeys(rows, RowKey) && forall i | 0 <= i < |rows| :: RowKey(rows[i]) !in t.rows)
  {
    if rows != [] {
      var front, last := rows[..|rows| - 1], rows[|rows| - 1];
      AddsCount(t, front);
      assert forall i | 0 <= i < |front| :: front[i] == rows[i];
      assert Fold(t, rows, Audit.Add) == Audit.Add(Fold(t, front, Audit.Add), last);
      hide Fold;
      assert forall i | 0 <= i < |rows| :: i < |front| || rows[i] == last;
    }
  }

  /** The table opens with one row for every rejected or parsed line exactly when no two lines share a key. */
  lemma OneRowPerLineExactly(errors: seq<IngestError>, nodes: seq<IngestedNode>)
    ensures |Filled(errors, nodes).order| == |errors| + |nodes| <==> UniqueLines(errors, nodes)
  {
    var es, ws := Map(errors, RejectedRow), Map(nodes, StartRow);
    var none := Table([], map[]);
    var t := Fold(none, es, Audit.Add);
    if UniqueLines(errors, nodes) {
      FilledRows(errors, nodes);
    }
    AddsCount(none, es);
    AddsCount(t, ws);
    hide Fold;
    if |Filled(errors, nodes).order| == |errors| + |nodes| {
      forall e, w | e in errors && w in nodes ensures (e.originName, e.lineNo) != NodeKey(w) {
        var i :| 0 <= i < |errors| && errors[i] == e;
        var j :| 0 <= j < |nodes| && nodes[j] == w;
        assert RowKey(es[i]) in t.rows && RowKey(ws[j]) !in t.rows;
      }
    }
  }

  lemma DropsKeyed(ws: seq<IngestedNode>)
    ensures RewritesOwnRow(ws, Drop, NodeKey, (w: IngestedNode, row: AuditRow) => AsDropped(row))
  {
  }

  lemma DropRows(t: Table, dropped: seq<IngestedNode>)
    requires DistinctKeys(dropped, NodeKey) && Known(t, dropped)
    ensures Framed(t, Fold(t, dropped, Drop), dropped)
    ensures forall w | w in dropped :: NodeKey(w) in Fold(t, dropped, Drop).rows
              && Fold(t, dropped, Drop).rows[NodeKey(w)] == AsDropped(t.rows[NodeKey(w)])
  {
    var g := (w: IngestedNode, row: AuditRow) => AsDropped(row);
    DropsKeyed(dropped);
    hide Drop, Fold, AsDropped;
    FoldKeyed(t, dropped, Drop, NodeKey, g);
    forall w | w in dropped ensures Fold(t, dropped, Drop).rows[NodeKey(w)] == AsDropped(t.rows[NodeKey(w)]) {
      var i :| 0 <= i < |dropped| && dropped[i] == w;
    }
  }

  /** What ranking and the ingest promise the merge. */
  ghost predicate Mergeable(world: World, t: TextFacts, f: HostFacts, errors: seq<IngestError>,
                            nodes: seq<IngestedNode>, ranked: seq<RankedItem>) {
    && UniqueLines(errors, nodes) && DistinctKeys(nodes, NodeKey)
    && DistinctNodes(Measured(world, Kept(f, nodes)))
    && RankedFrom(Judgements(world, t, f, nodes), ranked)
  }

  /** After the live stages, scores and ranks, only rows of kept lines have changed. */
  lemma LateFrame(world: World, t: TextFacts, kept: seq<IngestedNode>, ranked: seq<RankedItem>, d: Table)
    requires DistinctKeys(kept, NodeKey) && Known(d, kept)
    requires DistinctNodes(Measured(world, kept)) && RankedFrom(Map(Measured(world, kept), JudgeOf(t)), ranked)
    ensures Framed(d, Late(world, t, kept, ranked, d), kept)
    ensures Known(T4(world, kept, d), Measured(world, kept))
    ensures Known(Fold(T4(world, kept, d), Map(Measured(world, kept), JudgeOf(t)), Judge), Measured(world, kept))
  {
    LiveDistinct(world, kept);
    LiveWithin(world, kept);
    LiveFrame(world, kept, d);
    var ws := Measured(world, kept);
    var u := T4(world, kept, d);
    assert Known(u, ws) by { hide T4, Measured; }
    hide Fold, JudgeOf, T4, Measured, DistinctKeys, Wrappers, RankBack, RankedFrom, DistinctNodes;
    JudgeFrame(u, t, ws);
    var v := Fold(u, Map(ws, JudgeOf(t)), Judge);
    assert Known(v, ws);
    RankFrame(v, t, ws, ranked);
    var r := Fold(v, ranked, RankBack(Wrappers(Map(ws, JudgeOf(t)))));
    FramesCompose(d, u, v, r, ws, kept);
  }

  lemma FramesCompose(d: Table, u: Table, v: Table, r: Table, ws: seq<IngestedNode>, kept: seq<IngestedNode>)
    requires Framed(d, u, kept) && Framed(u, v, ws) && Framed(v, r, ws) && Within(ws, kept)
    ensures Framed(d, r, kept)
  {
    forall k | k in d.rows && (forall x | x in kept :: NodeKey(x) != k) ensures r.rows[k] == d.rows[k] {
      assert forall x | x in ws :: NodeKey(x) != k;
    }
  }

  /** The table after live stages, scores and ranks. */
  ghost function Late(world: World, t: TextFacts, kept: seq<IngestedNode>, ranked: seq<RankedItem>, d: Table): Table {
    var js := Map(Measured(world, kept), JudgeOf(t));
    Fold(Fold(T4(world, kept, d), js, Judge), ranked, RankBack(Wrappers(js)))
  }

  /** The row of a kept line ends as its verdict. */
  lemma LateRow(world: World, t: TextFacts, kept: seq<IngestedNode>, ranked: seq<RankedItem>, d: Table, w: IngestedNode)
    requires DistinctKeys(kept, NodeKey) && Known(d, kept) && w in kept && d.rows[NodeKey(w)] == StartRow(w)
    requires DistinctNodes(Measured(world, kept)) && RankedFrom(Map(Measured(world, kept), JudgeOf(t)), ranked)
    ensures NodeKey(w) in Late(world, t, kept, ranked, d).rows
    ensures Late(world, t, kept, ranked, d).rows[NodeKey(w)] == KeptRow(world, t, ranked, w)
  {
    LiveDistinct(world, kept);
    LateFrame(world, t, kept, ranked, d);
    LiveRow(world, kept, d, w);
    hide Fold, T4, Measured, DistinctKeys, Wrappers, RankBack, AfterMeasure, Known, Framed, StartRow, ScoreNode,
         DistinctNodes;
    hide JudgeOf, RankedFrom, Within;
    var ws := Measured(world, kept);
    var u := T4(world, kept, d);
    var fate := AfterMeasure(world, w);
    JudgeRow(u, t, ws, w, fate);
    var v := Fold(u, Map(ws, JudgeOf(t)), Judge);
    assert Late(world, t, kept, ranked, d) == Fold(v, ranked, RankBack(Wrappers(Map(ws, JudgeOf(t)))));
    hide Late, Map, KeptRow, RankedRowOf, JudgedRow, AsRanked;
    match fate
    case LostAt(_, _) =>
      RankFrame(v, t, ws, ranked);
      FrameGives(v, Late(world, t, kept, ranked, d), ws, NodeKey(w));
      KeptRowIs(world, t, ranked, w);
    case Survived(x) =>
      RankRow(v, t, ws, ranked, x);
      if ItemFor(ranked, x.node).Some? {
        RankedAreScored(t, ws, ranked, x.node);
      }
      KeptRowIs(world, t, ranked, w);
  }

  /** The verdict of a kept line is its judged row, with the rank of its item if it has one. */
  lemma KeptRowIs(world: World, t: TextFacts, ranked: seq<RankedItem>, w: IngestedNode)
    ensures AfterMeasure(world, w).LostAt? ==> KeptRow(world, t, ranked, w) == JudgedRow(t, w, AfterMeasure(world, w))
    ensures AfterMeasure(world, w).Survived? ==>
              var x := AfterMeasure(world, w).wrapper;
              (ItemFor(ranked, x.node).Some? ==> ScoreNode(t, x.node).status == Scored) ==>
                KeptRow(world, t, ranked, w) == RankedRowOf(JudgedRow(t, w, AfterMeasure(world, w)),
                                                            ItemFor(ranked, x.node))
  {
    hide AfterMeasure, ScoreNode, ItemFor;
  }

  lemma FrameGives(v: Table, r: Table, ws: seq<IngestedNode>, k: Key)
    requires Framed(v, r, ws) && k in v.rows && forall x | x in ws :: NodeKey(x) != k
    ensures k in r.rows && r.rows[k] == v.rows[k]
  {
    assert k in v.rows.Keys;
  }

  lemma RankedAreScored(t: TextFacts, ws: seq<IngestedNode>, ranked: seq<RankedItem>, n: Node)
    requires RankedFrom(Map(ws, JudgeOf(t)), ranked) && ItemFor(ranked, n).Some?
    ensures ScoreNode(t, n).status == Scored
  {
    ItemForExactly(ranked, n);
    var i :| 0 <= i < |ranked| && ranked[i] == ItemFor(ranked, n).value;
    var js := Map(ws, JudgeOf(t));
    assert HoldsScored(js, ranked[i].node);
    var j :| j in js && j.wrapper.node == n && j.outcome.status == Scored;
    var q :| 0 <= q < |js| && js[q] == j;
    assert j.outcome == ScoreNode(t, n);
  }

  /**
   * Merging stage by stage in place gives every rejected and every parsed line exactly
   * one row, in order, and that row is the verdict computed from the line alone.
   */
  lemma VerdictPerLine(world: World, t: TextFacts, f: HostFacts, errors: seq<IngestError>, nodes: seq<IngestedNode>,
                       ranked: seq<RankedItem>)
    requires Mergeable(world, t, f, errors, nodes, ranked)
    ensures var r := MergedRun(world, t, f, errors, nodes, ranked);
            Coherent(r) && Listing(r) == Map(errors, RejectedRow) + Map(nodes, LineRow(world, t, f, nodes, ranked))
  {
    var kept, dropped := Kept(f, nodes), DroppedLines(f, nodes);
    Partition(f, nodes);
    FilledRows(errors, nodes);
    var b := Filled(errors, nodes);
    assert Known(b, dropped) && Known(b, kept);
    DropRows(b, dropped);
    var d := Fold(b, dropped, Drop);
    forall w | w in kept ensures NodeKey(w) in d.rows && d.rows[NodeKey(w)] == StartRow(w) {
      FrameGives(b, d, dropped, NodeKey(w));
    }
    LateFrame(world, t, kept, ranked, d);
    var r := MergedRun(world, t, f, errors, nodes, ranked);
    assert r == Late(world, t, kept, ranked, d) by { MergeIsLate(world, t, f, errors, nodes, ranked); }
    MergeCoherent(errors, nodes, dropped,
      Reports(kept, DNS, DnsSteps(world)), Reports(Located(world, kept), Stage.TCP, TcpSteps(world)),
      Reports(Connected(world, kept), HANDSHAKE, HandshakeSteps(world)),
      Reports(Greeted(world, kept), MEASURE, MeasureSteps(world)),
      Judgements(world, t, f, nodes), ranked);
    hide Fold, Late, Measured, KeptRow, Kept, DroppedLines, Filled, RejectedRow, StartRow, Coherent;
    forall e | e in errors ensures ErrorKey(e) in r.rows && r.rows[ErrorKey(e)] == RejectedRow(e) {
      ErrorsApart(errors, nodes, e);
      FrameGives(b, d, dropped, ErrorKey(e));
      FrameGives(d, r, kept, ErrorKey(e));
    }
    forall w | w in nodes ensures NodeKey(w) in r.rows && r.rows[NodeKey(w)] == LineRow(world, t, f, nodes, ranked)(w) {
      if w in dropped {
        FrameGives(d, r, kept, NodeKey(w));
      } else {
        LateRow(world, t, kept, ranked, d, w);
      }
    }
    RowsListed(errors, nodes, r, LineRow(world, t, f, nodes, ranked));
  }

  lemma ErrorsApart(errors: seq<IngestError>, nodes: seq<IngestedNode>, e: IngestError)
    requires UniqueLines(errors, nodes) && e in errors
    ensures forall w | w in nodes :: NodeKey(w) != ErrorKey(e)
  {
  }

  lemma RowsListed(errors: seq<IngestError>, nodes: seq<IngestedNode>, r: Table, g: IngestedNode -> AuditRow)
    requires r.order == Map(errors, ErrorKey) + Map(nodes, NodeKey)
    requires forall e | e in errors :: ErrorKey(e) in r.rows && r.rows[ErrorKey(e)] == RejectedRow(e)
    requires forall w | w in nodes :: NodeKey(w) in r.rows && r.rows[NodeKey(w)] == g(w)
    requires forall k | k in r.order :: k in r.rows
    ensures Listing(r) == Map(errors, RejectedRow) + Map(nodes, g)
  {
    hide RejectedRow;
    var l := Listing(r);
    forall i | 0 <= i < |l| ensures l[i] == (Map(errors, RejectedRow) + Map(nodes, g))[i] {
      if i < |errors| {
        assert errors[i] in errors;
      } else {
        assert nodes[i - |errors|] in nodes;
      }
    }
  }

  lemma MergeIsLate(world: World, t: TextFacts, f: HostFacts, errors: seq<IngestError>, nodes: seq<IngestedNode>,
                    ranked: seq<RankedItem>)
    ensures MergedRun(world, t, f, errors, nodes, ranked)
            == Late(world, t, Kept(f, nodes), ranked, Fold(Filled(errors, nodes), DroppedLines(f, nodes), Drop))
  {
    hide Fold, Reports, Measured, Kept, DroppedLines, Filled, JudgeOf, Wrappers, RankBack;
  }
}
