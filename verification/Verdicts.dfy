/**
 * What the audit table means: the in-place merge of stage reports equals one verdict per
 * ingested line, computed from that line alone.
 */
module Verdicts {
  import opened Common
  import opened Numbers
  import opened Model
  import opened Ingest
  import opened Scoring
  import opened Sorting
  import opened Stages
  import opened Ranking
  import opened Audit

  // ---------------------------------------------------------------------------
  // The fate of one line
  // ---------------------------------------------------------------------------

  datatype Fate = LostAt(stage: Stage, reason: string) | Survived(wrapper: IngestedNode)

  /** One more stage for a line that may already be lost. */
  function Then(fate: Fate, step: IngestedNode -> Step, stage: Stage): Fate {
    if fate.LostAt? then fate
    else
      match step(fate.wrapper)
      case Lose(reason) => LostAt(stage, reason)
      case Keep(n, _) => Survived(fate.wrapper.(node := n))
  }

  function AfterDns(world: World, w: IngestedNode): Fate {
    Then(Survived(w), DnsSteps(world), DNS)
  }

  function AfterGeo(world: World, w: IngestedNode): Fate {
    Then(AfterDns(world, w), GeoSteps(world), GEO)
  }

  function AfterTcp(world: World, w: IngestedNode): Fate {
    Then(AfterGeo(world, w), TcpSteps(world), Stage.TCP)
  }

  function AfterHandshake(world: World, w: IngestedNode): Fate {
    Then(AfterTcp(world, w), HandshakeSteps(world), HANDSHAKE)
  }

  /** What the live stages do with a line, each consulted only while the line is alive. */
  ghost function AfterMeasure(world: World, w: IngestedNode): Fate {
    Then(AfterHandshake(world, w), MeasureSteps(world), MEASURE)
  }

  /** The rank of a node in a ranked list. */
  function ItemFor(ranked: seq<RankedItem>, n: Node): Option<RankedItem> {
    if ranked == [] then None
    else if ranked[|ranked| - 1].node == n then Some(ranked[|ranked| - 1])
    else ItemFor(ranked[..|ranked| - 1], n)
  }

  function RowOfFate(w: IngestedNode, fate: Fate): AuditRow {
    match fate
    case LostAt(stage, reason) => StartRow(w).(status := FAILED, stage := Some(stage), reason := reason)
    case Survived(_) => StartRow(w)
  }

  /** The one row a kept line deserves: the stage that lost it, why it is unranked, or its score and rank. */
  ghost function KeptRow(world: World, t: TextFacts, ranked: seq<RankedItem>, w: IngestedNode): AuditRow {
    match AfterMeasure(world, w)
    case LostAt(stage, reason) => StartRow(w).(status := FAILED, stage := Some(stage), reason := reason)
    case Survived(v) =>
      var o := ScoreNode(t, v.node);
      if o.status != Scored then StartRow(w).(status := UNRANKED, stage := Some(SCORE), reason := Trim(o.detail))
      else
        match ItemFor(ranked, v.node)
        case None => StartRow(w)
        case Some(item) => AsRanked(item, StartRow(w))
  }

  // ---------------------------------------------------------------------------
  // Folding keyed updates
  // ---------------------------------------------------------------------------

  ghost predicate DistinctKeys<X>(xs: seq<X>, kx: X -> Key) {
    forall i, j | 0 <= i < j < |xs| :: kx(xs[i]) != kx(xs[j])
  }

  /** `f` only rewrites the row of its own key. */
  ghost predicate RewritesOwnRow<X(!new)>(xs: seq<X>, f: (Table, X) -> Table, kx: X -> Key,
                                          g: (X, AuditRow) -> AuditRow) {
    forall u: Table, x: X :: x in xs && kx(x) in u.rows ==> f(u, x) == Put(u, kx(x), g(x, u.rows[kx(x)]))
  }

  /** `u` is `t` after each element rewrote its own row. */
  ghost predicate Rewritten<X(!new)>(t: Table, u: Table, xs: seq<X>, kx: X -> Key, g: (X, AuditRow) -> AuditRow)
    requires forall x | x in xs :: kx(x) in t.rows
  {
    && u.order == t.order && u.rows.Keys == t.rows.Keys
    && (forall i | 0 <= i < |xs| :: u.rows[kx(xs[i])] == g(xs[i], t.rows[kx(xs[i])]))
    && (forall k | k in t.rows && (forall x | x in xs :: kx(x) != k) :: u.rows[k] == t.rows[k])
  }

  lemma FoldKeyed<X(!new)>(t: Table, xs: seq<X>, f: (Table, X) -> Table, kx: X -> Key, g: (X, AuditRow) -> AuditRow)
    requires DistinctKeys(xs, kx) && RewritesOwnRow(xs, f, kx, g) && forall x | x in xs :: kx(x) in t.rows
    ensures Fold(t, xs, f).order == t.order && Fold(t, xs, f).rows.Keys == t.rows.Keys
    ensures forall i | 0 <= i < |xs| :: Fold(t, xs, f).rows[kx(xs[i])] == g(xs[i], t.rows[kx(xs[i])])
    ensures forall k | k in t.rows && (forall x | x in xs :: kx(x) != k) :: Fold(t, xs, f).rows[k] == t.rows[k]
  {
    FoldRewritten(t, xs, f, kx, g);
    hide Fold, DistinctKeys, RewritesOwnRow;
  }

  lemma {:induction false} FoldRewritten<X(!new)>(t: Table, xs: seq<X>, f: (Table, X) -> Table, kx: X -> Key,
                                                  g: (X, AuditRow) -> AuditRow)
    requires DistinctKeys(xs, kx) && RewritesOwnRow(xs, f, kx, g) && forall x | x in xs :: kx(x) in t.rows
    ensures Rewritten(t, Fold(t, xs, f), xs, kx, g)
  {
    if xs != [] {
      hide *;
      var front, last := xs[..|xs| - 1], xs[|xs| - 1];
      FrontKeyed(xs, f, kx, g);
      assert last in xs && kx(last) in t.rows;
      assert forall x | x in front :: x in xs;
      FoldRewritten(t, front, f, kx, g);
      OneMoreKeyed(t, Fold(t, front, f), xs, kx, g);
      LastFolded(t, xs, f, kx, g);
    }
  }

  lemma LastFolded<X(!new)>(t: Table, xs: seq<X>, f: (Table, X) -> Table, kx: X -> Key, g: (X, AuditRow) -> AuditRow)
    requires xs != [] && RewritesOwnRow(xs, f, kx, g) && kx(xs[|xs| - 1]) in t.rows
    requires Fold(t, xs[..|xs| - 1], f).rows.Keys == t.rows.Keys
    requires Fold(t, xs[..|xs| - 1], f).rows[kx(xs[|xs| - 1])] == t.rows[kx(xs[|xs| - 1])]
    ensures var u, last := Fold(t, xs[..|xs| - 1], f), xs[|xs| - 1];
            Fold(t, xs, f) == Put(u, kx(last), g(last, t.rows[kx(last)]))
  {
    assert xs[|xs| - 1] in xs;
  }

  lemma FrontKeyed<X(!new)>(xs: seq<X>, f: (Table, X) -> Table, kx: X -> Key, g: (X, AuditRow) -> AuditRow)
    requires xs != [] && DistinctKeys(xs, kx) && RewritesOwnRow(xs, f, kx, g)
    ensures DistinctKeys(xs[..|xs| - 1], kx) && RewritesOwnRow(xs[..|xs| - 1], f, kx, g)
    ensures forall x | x in xs[..|xs| - 1] :: kx(x) != kx(xs[|xs| - 1])
  {
  }

  lemma LastApart<X(!new)>(xs: seq<X>, kx: X -> Key)
    requires xs != [] && DistinctKeys(xs, kx)
    ensures forall x | x in xs[..|xs| - 1] :: kx(x) != kx(xs[|xs| - 1])
  {
  }

  /** The updates for all but the last element, and then its own. */
  lemma OneMoreKeyed<X(!new)>(t: Table, u: Table, xs: seq<X>, kx: X -> Key, g: (X, AuditRow) -> AuditRow)
    requires xs != [] && DistinctKeys(xs, kx) && forall x | x in xs :: kx(x) in t.rows
    requires forall x | x in xs[..|xs| - 1] :: x in xs
    requires Rewritten(t, u, xs[..|xs| - 1], kx, g)
    ensures u.rows.Keys == t.rows.Keys && xs[|xs| - 1] in xs && u.rows[kx(xs[|xs| - 1])] == t.rows[kx(xs[|xs| - 1])]
    ensures Rewritten(t, Put(u, kx(xs[|xs| - 1]), g(xs[|xs| - 1], t.rows[kx(xs[|xs| - 1])])), xs, kx, g)
  {
    var front, last := xs[..|xs| - 1], xs[|xs| - 1];
    var r := Put(u, kx(last), g(last, t.rows[kx(last)]));
    LastApart(xs, kx);
    assert u.rows[kx(last)] == t.rows[kx(last)];
    forall i | 0 <= i < |xs| ensures r.rows[kx(xs[i])] == g(xs[i], t.rows[kx(xs[i])]) {
      if i < |front| {
        assert xs[i] == front[i] && front[i] in front;
      }
    }
    forall k | k in t.rows && (forall x | x in xs :: kx(x) != k) ensures r.rows[k] == t.rows[k] {
      assert last in xs && u.rows[k] == t.rows[k];
    }
    hide DistinctKeys;
  }

  /** `u` is `t` with `rows` appended under their keys. */
  ghost predicate Appended(t: Table, rows: seq<AuditRow>, u: Table) {
    && Coherent(u) && u.order == t.order + Map(rows, RowKey)
    && (forall i | 0 <= i < |rows| :: RowKey(rows[i]) in u.rows && u.rows[RowKey(rows[i])] == rows[i])
    && (forall k | k in t.rows :: k in u.rows && u.rows[k] == t.rows[k])
  }

  lemma AppendOne(t: Table, front: seq<AuditRow>, u: Table, row: AuditRow)
    requires Coherent(t) && Appended(t, front, u) && RowKey(row) !in t.rows
    requires forall i | 0 <= i < |front| :: RowKey(front[i]) != RowKey(row)
    ensures Appended(t, front + [row], Audit.Add(u, row))
  {
    assert RowKey(row) !in u.order;
    PutCoherent(u, RowKey(row), row);
    assert Map(front + [row], RowKey) == Map(front, RowKey) + [RowKey(row)];
    hide Coherent;
    assert u.order + [RowKey(row)] == t.order + Map(front + [row], RowKey);
  }

  /** Adding rows under new keys appends them. */
  lemma {:induction false} FoldAdds(t: Table, rows: seq<AuditRow>)
    requires Coherent(t) && DistinctKeys(rows, RowKey) && forall i | 0 <= i < |rows| :: RowKey(rows[i]) !in t.rows
    ensures Appended(t, rows, Fold(t, rows, Audit.Add))
  {
    hide Coherent;
    if rows == [] {
      assert t.order + Map(rows, RowKey) == t.order;
    } else {
      var front, last := rows[..|rows| - 1], rows[|rows| - 1];
      assert rows == front + [last];
      FoldAdds(t, front);
      AppendOne(t, front, Fold(t, front, Audit.Add), last);
    }
  }

  // ---------------------------------------------------------------------------
  // Lines through stages
  // ---------------------------------------------------------------------------

  /** `ws` holds the line of `w` exactly while it survives, and then as its current wrapper. */
  ghost predicate Alive(ws: seq<IngestedNode>, w: IngestedNode, fate: Fate) {
    && (fate.Survived? ==> fate.wrapper in ws && NodeKey(fate.wrapper) == NodeKey(w))
    && (fate.LostAt? ==> forall v | v in ws :: NodeKey(v) != NodeKey(w))
  }

  lemma SameKeySameWrapper(ws: seq<IngestedNode>, u: IngestedNode, v: IngestedNode)
    requires DistinctKeys(ws, NodeKey) && u in ws && v in ws && NodeKey(u) == NodeKey(v)
    ensures u == v
  {
    var i :| 0 <= i < |ws| && ws[i] == u;
    var j :| 0 <= j < |ws| && ws[j] == v;
  }

  lemma {:induction false} SurvivorsDistinct(ws: seq<IngestedNode>, step: IngestedNode -> Step)
    requires DistinctKeys(ws, NodeKey)
    ensures DistinctKeys(Survivors(ws, step), NodeKey)
  {
    if ws != [] {
      var front, last := ws[..|ws| - 1], ws[|ws| - 1];
      SurvivorsDistinct(front, step);
      forall v | v in Survivors(front, step) ensures NodeKey(v) != NodeKey(last) {
        SurvivorFrom(front, step, v);
        var w :| w in front && step(w).Keep? && v == w.(node := step(w).node);
        var i :| 0 <= i < |front| && front[i] == w;
        assert ws[i] == w;
      }
    }
  }

  lemma AliveNext(ws: seq<IngestedNode>, w: IngestedNode, fate: Fate, step: IngestedNode -> Step, stage: Stage)
    requires DistinctKeys(ws, NodeKey) && Alive(ws, w, fate)
    ensures Alive(Survivors(ws, step), w, Then(fate, step, stage))
  {
    forall v ensures v in Survivors(ws, step) <==>
        exists y :: y in ws && step(y).Keep? && v == y.(node := step(y).node) {
      SurvivorFrom(ws, step, v);
    }
    forall v | v in Survivors(ws, step) && NodeKey(v) == NodeKey(w) ensures fate.Survived? && step(fate.wrapper).Keep? {
      var y :| y in ws && step(y).Keep? && v == y.(node := step(y).node);
      assert NodeKey(y) == NodeKey(w);
      if fate.Survived? {
        SameKeySameWrapper(ws, y, fate.wrapper);
      }
    }
  }

  lemma ReportsDistinct(ws: seq<IngestedNode>, stage: Stage, step: IngestedNode -> Step)
    requires DistinctKeys(ws, NodeKey)
    ensures DistinctKeys(Reports(ws, stage, step), ReportKey)
    ensures forall r | r in Reports(ws, stage, step) :: exists v :: v in ws && NodeKey(v) == ReportKey(r)
  {
    var rs := Reports(ws, stage, step);
    assert forall i | 0 <= i < |ws| :: ReportKey(rs[i]) == NodeKey(ws[i]);
    forall r | r in rs ensures exists v :: v in ws && NodeKey(v) == ReportKey(r) {
      var i :| 0 <= i < |rs| && rs[i] == r;
      assert ws[i] in ws;
    }
  }

  lemma ReportsRewrite(rs: seq<Report>)
    ensures RewritesOwnRow(rs, Report1, ReportKey, AsReported)
  {
  }

  /** Every line of `ws` has a row. */
  ghost predicate Known(t: Table, ws: seq<IngestedNode>) {
    forall w | w in ws :: NodeKey(w) in t.rows
  }

  /** Merging one stage's reports leaves the order and every other line's row alone. */
  lemma StageFrame(t: Table, ws: seq<IngestedNode>, step: IngestedNode -> Step, stage: Stage)
    requires DistinctKeys(ws, NodeKey) && Known(t, ws)
    ensures var u := Fold(t, Reports(ws, stage, step), Report1);
            && u.order == t.order && u.rows.Keys == t.rows.Keys
            && (forall k | k in t.rows && (forall v | v in ws :: NodeKey(v) != k) :: u.rows[k] == t.rows[k])
  {
    var rs := Reports(ws, stage, step);
    ReportsDistinct(ws, stage, step);
    ReportsRewrite(rs);
    hide Report1, Reports, Fold;
    FoldKeyed(t, rs, Report1, ReportKey, AsReported);
  }

  lemma ReportTellsFate(w: IngestedNode, x: IngestedNode, step: IngestedNode -> Step, stage: Stage)
    ensures AsReported(ReportOf(x, stage, step(x)), RowOfFate(w, Survived(x)))
            == RowOfFate(w, Then(Survived(x), step, stage))
  {
  }

  /** And brings the row of a line to what its fate after the stage says. */
  lemma StageRow(t: Table, ws: seq<IngestedNode>, w: IngestedNode, fate: Fate, step: IngestedNode -> Step, stage: Stage)
    requires DistinctKeys(ws, NodeKey) && Known(t, ws) && Alive(ws, w, fate)
    requires NodeKey(w) in t.rows && t.rows[NodeKey(w)] == RowOfFate(w, fate)
    ensures NodeKey(w) in Fold(t, Reports(ws, stage, step), Report1).rows
    ensures Fold(t, Reports(ws, stage, step), Report1).rows[NodeKey(w)] == RowOfFate(w, Then(fate, step, stage))
  {
    var rs := Reports(ws, stage, step);
    ReportsDistinct(ws, stage, step);
    ReportsRewrite(rs);
    StageFrame(t, ws, step, stage);
    if fate.LostAt? {
      hide Report1, Fold, Reports, RowOfFate;
      assert forall v | v in ws :: NodeKey(v) != NodeKey(w);
    } else {
      var i :| 0 <= i < |ws| && ws[i] == fate.wrapper;
      assert rs[i] == ReportOf(ws[i], stage, step(ws[i])) && ReportKey(rs[i]) == NodeKey(w);
      ReportTellsFate(w, fate.wrapper, step, stage);
      hide Report1, Fold, Reports, RowOfFate, Then, AsReported, ReportOf;
      FoldKeyed(t, rs, Report1, ReportKey, AsReported);
    }
  }

  ghost predicate Within(vs: seq<IngestedNode>, ws: seq<IngestedNode>) {
    forall v | v in vs :: exists w :: w in ws && NodeKey(w) == NodeKey(v)
  }

  lemma SurvivorsWithin(ws: seq<IngestedNode>, step: IngestedNode -> Step)
    ensures Within(Survivors(ws, step), ws)
  {
    forall v | v in Survivors(ws, step) ensures exists w :: w in ws && NodeKey(w) == NodeKey(v) {
      SurvivorFrom(ws, step, v);
    }
  }

  // ---------------------------------------------------------------------------
  // The live part of a run
  // ---------------------------------------------------------------------------

  function Resolved(world: World, kept: seq<IngestedNode>): seq<IngestedNode> {
    Survivors(kept, DnsSteps(world))
  }

  function Located(world: World, kept: seq<IngestedNode>): seq<IngestedNode> {
    Survivors(Resolved(world, kept), GeoSteps(world))
  }

  function Connected(world: World, kept: seq<IngestedNode>): seq<IngestedNode> {
    Survivors(Located(world, kept), TcpSteps(world))
  }

  function Greeted(world: World, kept: seq<IngestedNode>): seq<IngestedNode> {
    Survivors(Connected(world, kept), HandshakeSteps(world))
  }

  ghost function Measured(world: World, kept: seq<IngestedNode>): seq<IngestedNode> {
    Survivors(Greeted(world, kept), MeasureSteps(world))
  }

  lemma LiveDistinct(world: World, kept: seq<IngestedNode>)
    requires DistinctKeys(kept, NodeKey)
    ensures DistinctKeys(Resolved(world, kept), NodeKey) && DistinctKeys(Located(world, kept), NodeKey)
    ensures DistinctKeys(Connected(world, kept), NodeKey) && DistinctKeys(Greeted(world, kept), NodeKey)
    ensures DistinctKeys(Measured(world, kept), NodeKey)
  {
    hide DistinctKeys, Survivors;
    SurvivorsDistinct(kept, DnsSteps(world));
    SurvivorsDistinct(Resolved(world, kept), GeoSteps(world));
    SurvivorsDistinct(Located(world, kept), TcpSteps(world));
    SurvivorsDistinct(Connected(world, kept), HandshakeSteps(world));
    SurvivorsDistinct(Greeted(world, kept), MeasureSteps(world));
  }

  lemma WithinTrans(us: seq<IngestedNode>, vs: seq<IngestedNode>, ws: seq<IngestedNode>)
    requires Within(us, vs) && Within(vs, ws)
    ensures Within(us, ws)
  {
  }

  lemma LiveWithin(world: World, kept: seq<IngestedNode>)
    ensures Within(Located(world, kept), kept) && Within(Connected(world, kept), kept)
    ensures Within(Greeted(world, kept), kept) && Within(Measured(world, kept), kept)
  {
    hide Survivors, Within;
    SurvivorsWithin(kept, DnsSteps(world));
    SurvivorsWithin(Resolved(world, kept), GeoSteps(world));
    SurvivorsWithin(Located(world, kept), TcpSteps(world));
    SurvivorsWithin(Connected(world, kept), HandshakeSteps(world));
    SurvivorsWithin(Greeted(world, kept), MeasureSteps(world));
    WithinTrans(Located(world, kept), Resolved(world, kept), kept);
    WithinTrans(Connected(world, kept), Located(world, kept), kept);
    WithinTrans(Greeted(world, kept), Connected(world, kept), kept);
    WithinTrans(Measured(world, kept), Greeted(world, kept), kept);
  }

  /** The table after each of the four live stages. */
  function T1(world: World, kept: seq<IngestedNode>, t: Table): Table {
    Fold(t, Reports(kept, DNS, DnsSteps(world)), Report1)
  }

  function T2(world: World, kept: seq<IngestedNode>, t: Table): Table {
    Fold(T1(world, kept, t), Reports(Located(world, kept), Stage.TCP, TcpSteps(world)), Report1)
  }

  function T3(world: World, kept: seq<IngestedNode>, t: Table): Table {
    Fold(T2(world, kept, t), Reports(Connected(world, kept), HANDSHAKE, HandshakeSteps(world)), Report1)
  }

  ghost function T4(world: World, kept: seq<IngestedNode>, t: Table): Table {
    Fold(T3(world, kept, t), Reports(Greeted(world, kept), MEASURE, MeasureSteps(world)), Report1)
  }

  ghost predicate Framed(t: Table, u: Table, kept: seq<IngestedNode>) {
    && u.order == t.order && u.rows.Keys == t.rows.Keys
    && (forall k | k in t.rows && (forall v | v in kept :: NodeKey(v) != k) :: u.rows[k] == t.rows[k])
  }

  lemma StageFramed(t: Table, u: Table, ws: seq<IngestedNode>, kept: seq<IngestedNode>, step: IngestedNode -> Step,
                    stage: Stage)
    requires DistinctKeys(ws, NodeKey) && Known(t, kept) && Within(ws, kept) && Framed(t, u, kept)
    ensures Framed(t, Fold(u, Reports(ws, stage, step), Report1), kept) && Known(u, ws)
  {
    assert Known(u, ws);
    hide Fold, Reports;
    StageFrame(u, ws, step, stage);
    var v := Fold(u, Reports(ws, stage, step), Report1);
    forall k | k in t.rows && (forall x | x in kept :: NodeKey(x) != k) ensures v.rows[k] == t.rows[k] {
      assert forall x | x in ws :: NodeKey(x) != k;
    }
  }

  lemma LiveFrame(world: World, kept: seq<IngestedNode>, t: Table)
    requires DistinctKeys(kept, NodeKey) && Known(t, kept)
    ensures Framed(t, T1(world, kept, t), kept) && Framed(t, T2(world, kept, t), kept)
    ensures Framed(t, T3(world, kept, t), kept) && Framed(t, T4(world, kept, t), kept)
    ensures Known(T1(world, kept, t), Located(world, kept)) && Known(T2(world, kept, t), Connected(world, kept))
    ensures Known(T3(world, kept, t), Greeted(world, kept))
  {
    assert Within(kept, kept) && Framed(t, t, kept);
    hide DistinctKeys, Framed, Known, Within, Fold, Reports, Located, Connected, Greeted;
    LiveDistinct(world, kept);
    LiveWithin(world, kept);
    StageFramed(t, t, kept, kept, DnsSteps(world), DNS);
    StageFramed(t, T1(world, kept, t), Located(world, kept), kept, TcpSteps(world), Stage.TCP);
    StageFramed(t, T2(world, kept, t), Connected(world, kept), kept, HandshakeSteps(world), HANDSHAKE);
    StageFramed(t, T3(world, kept, t), Greeted(world, kept), kept, MeasureSteps(world), MEASURE);
  }

  /** After the live stages the row of a kept line tells its fate, and it is measured exactly if it survived. */
  lemma LiveRow(world: World, kept: seq<IngestedNode>, t: Table, w: IngestedNode)
    requires DistinctKeys(kept, NodeKey) && Known(t, kept) && w in kept && t.rows[NodeKey(w)] == StartRow(w)
    ensures NodeKey(w) in T4(world, kept, t).rows
    ensures T4(world, kept, t).rows[NodeKey(w)] == RowOfFate(w, AfterMeasure(world, w))
    ensures Alive(Measured(world, kept), w, AfterMeasure(world, w))
  {
    LiveFrame(world, kept, t);
    LiveDistinct(world, kept);
    assert Alive(kept, w, Survived(w));
    assert RowOfFate(w, Survived(w)) == StartRow(w);
    LocatedKeepsFate(world, w);
    hide DistinctKeys, Framed, Alive, Fold, Reports, DnsSteps, GeoSteps, TcpSteps, HandshakeSteps, MeasureSteps,
         RowOfFate, StartRow, Then, Survivors;
    AliveNext(kept, w, Survived(w), DnsSteps(world), DNS);
    AliveNext(Resolved(world, kept), w, AfterDns(world, w), GeoSteps(world), GEO);
    AliveNext(Located(world, kept), w, AfterGeo(world, w), TcpSteps(world), Stage.TCP);
    AliveNext(Connected(world, kept), w, AfterTcp(world, w), HandshakeSteps(world), HANDSHAKE);
    AliveNext(Greeted(world, kept), w, AfterHandshake(world, w), MeasureSteps(world), MEASURE);
    StageRow(t, kept, w, Survived(w), DnsSteps(world), DNS);
    StageRow(T1(world, kept, t), Located(world, kept), w, AfterGeo(world, w), TcpSteps(world), Stage.TCP);
    StageRow(T2(world, kept, t), Connected(world, kept), w, AfterTcp(world, w), HandshakeSteps(world), HANDSHAKE);
    StageRow(T3(world, kept, t), Greeted(world, kept), w, AfterHandshake(world, w), MeasureSteps(world), MEASURE);
  }

  /** Geo annotation never loses a line, so the row does not change. */
  lemma LocatedKeepsFate(world: World, w: IngestedNode)
    ensures RowOfFate(w, AfterGeo(world, w)) == RowOfFate(w, AfterDns(world, w))
  {
    hide GeoName, DnsStep;
  }

  // ---------------------------------------------------------------------------
  // Scores and ranks
  // ---------------------------------------------------------------------------

  function JudgeOf(t: TextFacts): IngestedNode -> Judged {
    (w: IngestedNode) => Judged(w, ScoreNode(t, w.node))
  }

  function CandidateOf(j: Judged): Candidate {
    Candidate(j.wrapper.node, j.outcome)
  }

  ghost predicate DistinctNodes(ws: seq<IngestedNode>) {
    forall i, j | 0 <= i < j < |ws| :: ws[i].node != ws[j].node
  }

  function JudgedRow(t: TextFacts, w: IngestedNode, fate: Fate): AuditRow {
    match fate
    case LostAt(_, _) => RowOfFate(w, fate)
    case Survived(v) => AsJudged(JudgeOf(t)(v), StartRow(w))
  }

  lemma JudgesKeyed(t: TextFacts, ws: seq<IngestedNode>)
    requires DistinctKeys(ws, NodeKey)
    ensures var js := Map(ws, JudgeOf(t));
            && DistinctKeys(js, JudgedKey) && RewritesOwnRow(js, Judge, JudgedKey, AsJudged)
            && (forall j | j in js :: j.wrapper in ws && j == JudgeOf(t)(j.wrapper))
  {
    hide ScoreNode;
    var js := Map(ws, JudgeOf(t));
    assert forall i | 0 <= i < |js| :: JudgedKey(js[i]) == NodeKey(ws[i]);
  }

  /** Merging the scores touches only the measured lines. */
  lemma JudgeFrame(u: Table, t: TextFacts, ws: seq<IngestedNode>)
    requires DistinctKeys(ws, NodeKey) && Known(u, ws)
    ensures Framed(u, Fold(u, Map(ws, JudgeOf(t)), Judge), ws)
  {
    JudgesKeyed(t, ws);
    hide Judge, Fold, JudgeOf;
    var js := Map(ws, JudgeOf(t));
    FoldKeyed(u, js, Judge, JudgedKey, AsJudged);
    forall k | k in u.rows && (forall v | v in ws :: NodeKey(v) != k) ensures Fold(u, js, Judge).rows[k] == u.rows[k] {
      assert forall j | j in js :: JudgedKey(j) != k;
    }
  }

  lemma JudgeRow(u: Table, t: TextFacts, ws: seq<IngestedNode>, w: IngestedNode, fate: Fate)
    requires DistinctKeys(ws, NodeKey) && Known(u, ws) && Alive(ws, w, fate)
    requires NodeKey(w) in u.rows && u.rows[NodeKey(w)] == RowOfFate(w, fate)
    ensures var v := Fold(u, Map(ws, JudgeOf(t)), Judge);
            NodeKey(w) in v.rows && v.rows[NodeKey(w)] == JudgedRow(t, w, fate)
  {
    JudgesKeyed(t, ws);
    JudgeFrame(u, t, ws);
    hide Judge, Fold, ScoreNode;
    var js := Map(ws, JudgeOf(t));
    FoldKeyed(u, js, Judge, JudgedKey, AsJudged);
    if fate.Survived? {
      var i :| 0 <= i < |ws| && ws[i] == fate.wrapper;
      assert js[i] == JudgeOf(t)(fate.wrapper);
    }
  }

  /** Looking a node up finds its own wrapper. */
  lemma {:induction false} WrapperOf(js: seq<Judged>, j: Judged)
    requires j in js && forall a: Judged, b: Judged | a in js && b in js && a.wrapper.node == b.wrapper.node ::
               a.wrapper == b.wrapper
    ensures j.wrapper.node in Wrappers(js) && Wrappers(js)[j.wrapper.node] == j.wrapper
  {
    var front, last := js[..|js| - 1], js[|js| - 1];
    assert js == front + [last];
    if j.wrapper.node != last.wrapper.node {
      assert j in front;
      WrapperOf(front, j);
    }
  }

  /** The ranked items stand for different scored nodes of the batch. */
  ghost predicate RankedFrom(js: seq<Judged>, ranked: seq<RankedItem>) {
    && (forall i, j | 0 <= i < j < |ranked| :: ranked[i].node != ranked[j].node)
    && (forall i | 0 <= i < |ranked| :: HoldsScored(js, ranked[i].node))
  }

  ghost predicate HoldsScored(js: seq<Judged>, n: Node) {
    exists j :: j in js && j.wrapper.node == n && j.outcome.status == Scored
  }

  /** The row a ranked item is joined back to. */
  function BackKey(wrappers: map<Node, IngestedNode>): RankedItem -> Key {
    (item: RankedItem) => if item.node in wrappers then NodeKey(wrappers[item.node]) else ("", -1)
  }

  /** Each ranked item is joined back to the line of the scored wrapper that carries its node. */
  lemma JoinsBack(t: TextFacts, ws: seq<IngestedNode>, ranked: seq<RankedItem>, i: nat) returns (v: IngestedNode)
    requires DistinctNodes(ws) && i < |ranked| && RankedFrom(Map(ws, JudgeOf(t)), ranked)
    ensures var m := Wrappers(Map(ws, JudgeOf(t)));
            && v in ws && v.node == ranked[i].node && v.node in m && m[v.node] == v
               && BackKey(m)(ranked[i]) == NodeKey(v)
            && ScoreNode(t, v.node).status == Scored
  {
    hide ScoreNode, Wrappers;
    var js := Map(ws, JudgeOf(t));
    assert HoldsScored(js, ranked[i].node);
    var j :| j in js && j.wrapper.node == ranked[i].node && j.outcome.status == Scored;
    forall a: Judged, b: Judged | a in js && b in js
        && a.wrapper.node == b.wrapper.node ensures a.wrapper == b.wrapper {
      var p :| 0 <= p < |js| && js[p] == a;
      var q :| 0 <= q < |js| && js[q] == b;
      assert js[p].wrapper == ws[p] && js[q].wrapper == ws[q];
    }
    WrapperOf(js, j);
    var p :| 0 <= p < |js| && js[p] == j;
    assert js[p] == JudgeOf(t)(ws[p]);
    v := ws[p];
  }

  lemma RanksKeyed(t: TextFacts, ws: seq<IngestedNode>, ranked: seq<RankedItem>)
    requires DistinctKeys(ws, NodeKey) && DistinctNodes(ws) && RankedFrom(Map(ws, JudgeOf(t)), ranked)
    ensures var m := Wrappers(Map(ws, JudgeOf(t)));
            && DistinctKeys(ranked, BackKey(m)) && RewritesOwnRow(ranked, RankBack(m), BackKey(m), AsRanked)
            && (forall item | item in ranked ::
                exists v :: v in ws && v.node == item.node && NodeKey(v) == BackKey(m)(item))
  {
    hide ScoreNode, Wrappers, JudgeOf;
    var js := Map(ws, JudgeOf(t));
    var m := Wrappers(js);
    forall i, j | 0 <= i < j < |ranked| ensures BackKey(m)(ranked[i]) != BackKey(m)(ranked[j]) {
      var u := JoinsBack(t, ws, ranked, i);
      var v := JoinsBack(t, ws, ranked, j);
      if NodeKey(u) == NodeKey(v) {
        SameKeySameWrapper(ws, u, v);
      }
    }
    forall item | item in ranked
      ensures item.node in m && exists v :: v in ws && v.node == item.node && NodeKey(v) == BackKey(m)(item)
    {
      var i :| 0 <= i < |ranked| && ranked[i] == item;
      var v := JoinsBack(t, ws, ranked, i);
    }
  }

  /** Merging the ranks touches only the measured lines. */
  lemma RankFrame(u: Table, t: TextFacts, ws: seq<IngestedNode>, ranked: seq<RankedItem>)
    requires DistinctKeys(ws, NodeKey) && Known(u, ws) && DistinctNodes(ws) && RankedFrom(Map(ws, JudgeOf(t)), ranked)
    ensures Framed(u, Fold(u, ranked, RankBack(Wrappers(Map(ws, JudgeOf(t))))), ws)
  {
    RanksKeyed(t, ws, ranked);
    hide Fold, JudgeOf, Wrappers, RankBack, BackKey;
    var m := Wrappers(Map(ws, JudgeOf(t)));
    FoldKeyed(u, ranked, RankBack(m), BackKey(m), AsRanked);
    forall k | k in u.rows && (forall v | v in ws :: NodeKey(v) != k) ensures Fold(u, ranked, RankBack(m)).rows[k]
        == u.rows[k] {
      assert forall item | item in ranked :: BackKey(m)(item) != k;
    }
  }

  lemma {:induction false} ItemForExactly(ranked: seq<RankedItem>, n: Node)
    ensures ItemFor(ranked, n).Some? ==> ItemFor(ranked, n).value in ranked && ItemFor(ranked, n).value.node == n
    ensures ItemFor(ranked, n).None? ==> forall item | item in ranked :: item.node != n
  {
    if ranked != [] {
      ItemForExactly(ranked[..|ranked| - 1], n);
      assert ranked == ranked[..|ranked| - 1] + [ranked[|ranked| - 1]];
    }
  }

  function RankedRowOf(row: AuditRow, item: Option<RankedItem>): AuditRow {
    match item case None => row case Some(i) => AsRanked(i, row)
  }

  /** A surviving line gets the score and rank of the item that carries its node, if any. */
  lemma RankRow(u: Table, t: TextFacts, ws: seq<IngestedNode>, ranked: seq<RankedItem>, v: IngestedNode)
    requires DistinctKeys(ws, NodeKey) && Known(u, ws) && DistinctNodes(ws) && RankedFrom(Map(ws, JudgeOf(t)), ranked)
    requires v in ws
    ensures var r := Fold(u, ranked, RankBack(Wrappers(Map(ws, JudgeOf(t)))));
            NodeKey(v) in r.rows && r.rows[NodeKey(v)] == RankedRowOf(u.rows[NodeKey(v)], ItemFor(ranked, v.node))
  {
    RanksKeyed(t, ws, ranked);
    ItemForExactly(ranked, v.node);
    hide Fold, JudgeOf, Wrappers, RankBack, BackKey, ItemFor;
    var m := Wrappers(Map(ws, JudgeOf(t)));
    FoldKeyed(u, ranked, RankBack(m), BackKey(m), AsRanked);
    match ItemFor(ranked, v.node)
    case Some(item) =>
      var i :| 0 <= i < |ranked| && ranked[i] == item;
      var x := JoinsBack(t, ws, ranked, i);
      SameNodeSameWrapper(ws, x, v);
    case None =>
      forall item | item in ranked ensures BackKey(m)(item) != NodeKey(v) {
        var x :| x in ws && x.node == item.node && NodeKey(x) == BackKey(m)(item);
        if NodeKey(x) == NodeKey(v) {
          SameKeySameWrapper(ws, x, v);
        }
      }
  }

  lemma SameNodeSameWrapper(ws: seq<IngestedNode>, u: IngestedNode, v: IngestedNode)
    requires DistinctNodes(ws) && u in ws && v in ws && u.node == v.node
    ensures u == v
  {
    var i :| 0 <= i < |ws| && ws[i] == u;
    var j :| 0 <= j < |ws| && ws[j] == v;
  }
}
