/** `rank_candidates`: refusals, the four-level order, Top-N, and what the order depends on. */
module Ranking {
  import opened Common
  import opened Numbers
  import opened Model
  import opened Scoring
  import opened Text
  import opened Sorting
  import opened NodeText
  import Canonical
  import Measure

  datatype Candidate = Candidate(node: Node, outcome: ScoreOutcome)

  datatype RankingPolicy = RankingPolicy(order: string, tieBreak: string)

  datatype IntegrityFault =
    | NoNumericScore | NonFiniteScore
    | NoMeasuredLatency | NotMeasuredKind | LatencyNotNumeric | LatencyNotFinite | LatencyNotPositive
    | UnexpectedScore

  datatype RankingError =
    | UnsupportedOrder(order: string) | UnsupportedTieBreak(tieBreak: string)
    | InvalidTopN(n: int) | ScoreIntegrity(why: IntegrityFault)

  /** Score descending, measured latency ascending, then identity and content texts. */
  datatype RankKey = RankKey(negScore: real, ms: real, words: seq<string>)

  datatype Row<K> = Row(key: K, node: Node, outcome: ScoreOutcome)

  datatype RankedItem = RankedItem(rank: nat, node: Node, outcome: ScoreOutcome, key: RankKey)

  datatype RankingResult =
    RankingResult(ranked: seq<RankedItem>, unranked: seq<Row<seq<string>>>, totalRanked: nat, requestedN: Option<int>)

  // ---------------------------------------------------------------------------
  // Orders
  // ---------------------------------------------------------------------------

  /** Python's order on tuples of strings. */
  predicate WordsLe(a: seq<string>, b: seq<string>) {
    if a == [] then true
    else if b == [] then false
    else if a[0] != b[0] then TextLe(a[0], b[0])
    else WordsLe(a[1..], b[1..])
  }

  lemma {:induction false} WordsLeTotal(a: seq<string>, b: seq<string>)
    ensures WordsLe(a, b) || WordsLe(b, a)
    ensures WordsLe(a, b) && WordsLe(b, a) ==> a == b
  {
    if a != [] && b != [] {
      TextLeTotal(a[0], b[0]);
      WordsLeTotal(a[1..], b[1..]);
      assert a == [a[0]] + a[1..] && b == [b[0]] + b[1..];
    }
  }

  lemma {:induction false} WordsLeTrans(a: seq<string>, b: seq<string>, c: seq<string>)
    requires WordsLe(a, b) && WordsLe(b, c)
    ensures WordsLe(a, c)
  {
    hide TextLe;
    if a != [] && b != [] && c != [] {
      if a[0] == b[0] == c[0] {
        WordsLeTrans(a[1..], b[1..], c[1..]);
      } else {
        TextLeTotal(a[0], b[0]);
        TextLeTotal(b[0], c[0]);
        if a[0] != b[0] && b[0] != c[0] {
          TextLeTrans(a[0], b[0], c[0]);
        }
      }
    }
  }

  lemma WordsOrdered()
    ensures TotalOrder(WordsLe)
  {
    forall a, b ensures WordsLe(a, b) || WordsLe(b, a) ensures WordsLe(a, b) && WordsLe(b, a) ==> a == b {
      WordsLeTotal(a, b);
    }
    forall a, b, c | WordsLe(a, b) && WordsLe(b, c) ensures WordsLe(a, c) {
      WordsLeTrans(a, b, c);
    }
  }

  predicate KeyLe(x: RankKey, y: RankKey) {
    if x.negScore != y.negScore then x.negScore < y.negScore
    else if x.ms != y.ms then x.ms < y.ms
    else WordsLe(x.words, y.words)
  }

  /** The four levels make one total order. */
  lemma KeysOrdered()
    ensures TotalOrder(KeyLe)
  {
    hide WordsLe;
    WordsOrdered();
    forall x, y ensures KeyLe(x, y) || KeyLe(y, x) ensures KeyLe(x, y) && KeyLe(y, x) ==> x == y {
      assert WordsLe(x.words, y.words) || WordsLe(y.words, x.words);
    }
    forall x, y, z | KeyLe(x, y) && KeyLe(y, z) ensures KeyLe(x, z) {
      assert WordsLe(x.words, y.words) && WordsLe(y.words, z.words) ==> WordsLe(x.words, z.words);
    }
  }

  // ---------------------------------------------------------------------------
  // Rows
  // ---------------------------------------------------------------------------

  predicate IsScored(c: Candidate) {
    c.outcome.status == Scored
  }

  predicate NotRanked(c: Candidate) {
    !IsScored(c)
  }

  /** Why a candidate contradicts the scoring contract, if it does. */
  function RefusalOf(c: Candidate): Option<IntegrityFault> {
    var sample := c.node.measuredLatency;
    if IsScored(c) then
      if c.outcome.score.None? then Some(NoNumericScore)
      else if !c.outcome.score.value.Finite() then Some(NonFiniteScore)
      else if sample.None? then Some(NoMeasuredLatency)
      else if sample.value.kind != MEASURED then Some(NotMeasuredKind)
      else if sample.value.valueMs.None? then Some(LatencyNotNumeric)
      else if !sample.value.valueMs.value.Finite() then Some(LatencyNotFinite)
      else if sample.value.valueMs.value.r <= 0.0 then Some(LatencyNotPositive)
      else None
    else if c.outcome.score.Some? then Some(UnexpectedScore)
    else None
  }

  /** A number out of an optional float; only read where it is known to be there. */
  function Number(f: Option<Float>): real {
    if f.Some? && f.value.Fin? then f.value.r else 0.0
  }

  function MsOf(n: Node): real {
    if n.measuredLatency.Some? then Number(n.measuredLatency.value.valueMs) else 0.0
  }

  function StatusText(s: Status): string {
    match s
    case Scored => "scored" case Unsupported => "unsupported"
    case Unscorable => "unscorable" case InsufficientData => "insufficient_data"
  }

  function RankedRow(repr: Float -> string, c: Candidate): Row<RankKey> {
    Row(RankKey(-Number(c.outcome.score), MsOf(c.node), [IdentityText(repr, c.node), ContentText(repr, c.node)]),
        c.node, c.outcome)
  }

  function UnrankedRow(repr: Float -> string, c: Candidate): Row<seq<string>> {
    Row([StatusText(c.outcome.status), c.outcome.detail, IdentityText(repr, c.node), ContentText(repr, c.node)],
        c.node, c.outcome)
  }

  function ToRanked(repr: Float -> string): Candidate -> Row<RankKey> {
    c => RankedRow(repr, c)
  }

  function ToUnranked(repr: Float -> string): Candidate -> Row<seq<string>> {
    c => UnrankedRow(repr, c)
  }

  function RankedRows(repr: Float -> string, cs: seq<Candidate>): seq<Row<RankKey>> {
    Map(Select(cs, IsScored), ToRanked(repr))
  }

  function UnrankedRows(repr: Float -> string, cs: seq<Candidate>): seq<Row<seq<string>>> {
    Map(Select(cs, NotRanked), ToUnranked(repr))
  }

  function KeyIn<K>(row: Row<K>): K {
    row.key
  }

  function Entry<K>(row: Row<K>): Candidate {
    Candidate(row.node, row.outcome)
  }

  function Ranked(repr: Float -> string, cs: seq<Candidate>): seq<Row<RankKey>> {
    Sort(RankedRows(repr, cs), ByKey(KeyIn, KeyLe))
  }

  function Unranked(repr: Float -> string, cs: seq<Candidate>): seq<Row<seq<string>>> {
    Sort(UnrankedRows(repr, cs), ByKey(KeyIn, WordsLe))
  }

  function Numbered(rows: seq<Row<RankKey>>): (items: seq<RankedItem>)
    ensures |items| == |rows|
    ensures forall i | 0 <= i < |items| :: items[i] == RankedItem(i + 1, rows[i].node, rows[i].outcome, rows[i].key)
  {
    seq(|rows|, i requires 0 <= i < |rows| => RankedItem(i + 1, rows[i].node, rows[i].outcome, rows[i].key))
  }

  function Cut<T>(items: seq<T>, n: Option<int>): seq<T> {
    if n.None? || n.value < 0 || n.value >= |items| then items else items[..n.value]
  }

  function RankingOf(repr: Float -> string, cs: seq<Candidate>, n: Option<int>): RankingResult {
    RankingResult(Cut(Numbered(Ranked(repr, cs)), n), Unranked(repr, cs), |Ranked(repr, cs)|, n)
  }

  // ---------------------------------------------------------------------------
  // The pass
  // ---------------------------------------------------------------------------

  /** What is wrong with the request itself, before any candidate is looked at. */
  function Complaint(policy: RankingPolicy, n: Option<int>): Option<RankingError> {
    if policy.order != "score_desc" then Some(UnsupportedOrder(policy.order))
    else if policy.tieBreak != "measured_ms_asc" then Some(UnsupportedTieBreak(policy.tieBreak))
    else if n.Some? && n.value <= 0 then Some(InvalidTopN(n.value))
    else None
  }

  ghost predicate Admitted(cs: seq<Candidate>) {
    forall c | c in cs :: RefusalOf(c).None?
  }

  ghost predicate FirstRefused(cs: seq<Candidate>, k: nat, why: IntegrityFault) {
    k < |cs| && Admitted(cs[..k]) && RefusalOf(cs[k]) == Some(why)
  }

  lemma MapSnoc<T, U>(s: seq<T>, x: T, f: T -> U)
    ensures Map(s + [x], f) == Map(s, f) + [f(x)]
  {
  }

  lemma SelectSnoc<T>(s: seq<T>, x: T, p: T -> bool)
    ensures Select(s + [x], p) == if p(x) then Select(s, p) + [x] else Select(s, p)
  {
    SelectAppend(s, [x], p);
  }

  lemma RowsSnoc(repr: Float -> string, cs: seq<Candidate>, c: Candidate)
    ensures RankedRows(repr, cs + [c]) == RankedRows(repr, cs) + (if IsScored(c) then [RankedRow(repr, c)] else [])
    ensures UnrankedRows(repr, cs + [c])
            == UnrankedRows(repr, cs) + (if IsScored(c) then [] else [UnrankedRow(repr, c)])
  {
    hide RankedRow, UnrankedRow, Select;
    SelectSnoc(cs, c, IsScored);
    SelectSnoc(cs, c, NotRanked);
  }

  /** Refused for the first contradiction found, and otherwise ranked in full. */
  method RankCandidates(repr: Float -> string, cs: seq<Candidate>, n: Option<int>, policy: RankingPolicy)
    returns (r: Result<RankingResult, RankingError>)
    ensures Complaint(policy, n).Some? ==> r == Err(Complaint(policy, n).value)
    ensures Complaint(policy, n).None? ==> (r.Ok? <==> Admitted(cs))
    ensures Complaint(policy, n).None? && r.Err? ==>
              exists k, why :: FirstRefused(cs, k, why) && r.error == ScoreIntegrity(why)
    ensures r.Ok? ==> r.value == RankingOf(repr, cs, n)
  {
    hide RankedRow, UnrankedRow, RankedRows, UnrankedRows, RefusalOf, IsScored;
    var complaint := Complaint(policy, n);
    if complaint.Some? {
      return Err(complaint.value);
    }
    var rankedRows: seq<Row<RankKey>> := [];
    var unrankedRows: seq<Row<seq<string>>> := [];
    assert RankedRows(repr, []) == [] && UnrankedRows(repr, []) == [] by { NoRows(repr); }
    for i := 0 to |cs|
      invariant Admitted(cs[..i])
      invariant rankedRows == RankedRows(repr, cs[..i])
      invariant unrankedRows == UnrankedRows(repr, cs[..i])
    {
      var c := cs[i];
      var refusal := RefusalOf(c);
      if refusal.Some? {
        assert FirstRefused(cs, i, refusal.value);
        return Err(ScoreIntegrity(refusal.value));
      }
      RowsSnoc(repr, cs[..i], c);
      assert cs[..i + 1] == cs[..i] + [c];
      if IsScored(c) {
        rankedRows := rankedRows + [RankedRow(repr, c)];
      } else {
        unrankedRows := unrankedRows + [UnrankedRow(repr, c)];
      }
    }
    assert cs[..|cs|] == cs;
    var ranked := Sort(rankedRows, ByKey(KeyIn, KeyLe));
    var unranked := Sort(unrankedRows, ByKey(KeyIn, WordsLe));
    return Ok(RankingResult(Cut(Numbered(ranked), n), unranked, |ranked|, n));
  }

  lemma NoRows(repr: Float -> string)
    ensures RankedRows(repr, []) == [] && UnrankedRows(repr, []) == []
  {
  }

  // ---------------------------------------------------------------------------
  // What a ranking is
  // ---------------------------------------------------------------------------

  lemma RowsPreordered()
    ensures Preorder(ByKey(KeyIn<RankKey>, KeyLe)) && Preorder(ByKey(KeyIn<seq<string>>, WordsLe))
  {
    KeysOrdered();
    WordsOrdered();
    ByKeyPreordered(KeyIn<RankKey>, KeyLe);
    ByKeyPreordered(KeyIn<seq<string>>, WordsLe);
  }

  lemma EntriesBack(repr: Float -> string, cs: seq<Candidate>)
    ensures Map(RankedRows(repr, cs), Entry) == Select(cs, IsScored)
    ensures Map(UnrankedRows(repr, cs), Entry) == Select(cs, NotRanked)
  {
    hide Select;
  }

  /** Both lists are sorted rearrangements of their class; nothing is lost, merged or added. */
  lemma SortedPermutations(repr: Float -> string, cs: seq<Candidate>)
    ensures multiset(Map(Ranked(repr, cs), Entry)) == multiset(Select(cs, IsScored))
    ensures multiset(Map(Unranked(repr, cs), Entry)) == multiset(Select(cs, NotRanked))
    ensures forall i, j | 0 <= i < j < |Ranked(repr, cs)| :: KeyLe(Ranked(repr, cs)[i].key, Ranked(repr, cs)[j].key)
    ensures forall i, j | 0 <= i < j < |Unranked(repr, cs)| ::
              WordsLe(Unranked(repr, cs)[i].key, Unranked(repr, cs)[j].key)
  {
    hide KeyLe, WordsLe, Select, RankedRows, UnrankedRows, Sort;
    RowsPreordered();
    EntriesBack(repr, cs);
    SortPermutes(RankedRows(repr, cs), ByKey(KeyIn, KeyLe));
    SortPermutes(UnrankedRows(repr, cs), ByKey(KeyIn, WordsLe));
    SortAscends(RankedRows(repr, cs), ByKey(KeyIn, KeyLe));
    SortAscends(UnrankedRows(repr, cs), ByKey(KeyIn, WordsLe));
    MapPermutes(Ranked(repr, cs), RankedRows(repr, cs), Entry);
    MapPermutes(Unranked(repr, cs), UnrankedRows(repr, cs), Entry);
    var rle, ule := ByKey(KeyIn<RankKey>, KeyLe), ByKey(KeyIn<seq<string>>, WordsLe);
    forall i, j | 0 <= i < j < |Ranked(repr, cs)| ensures KeyLe(Ranked(repr, cs)[i].key, Ranked(repr, cs)[j].key) {
      assert rle(Ranked(repr, cs)[i], Ranked(repr, cs)[j]);
    }
    forall i, j | 0 <= i < j < |Unranked(repr, cs)| ensures WordsLe(Unranked(repr, cs)[i].key,
                                                                    Unranked(repr, cs)[j].key) {
      assert ule(Unranked(repr, cs)[i], Unranked(repr, cs)[j]);
    }
  }

  /** Every ranked row carries the key of its own node and outcome. */
  lemma RowsKeyed(repr: Float -> string, cs: seq<Candidate>, i: nat)
    requires i < |Ranked(repr, cs)|
    ensures var row := Ranked(repr, cs)[i];
            row == RankedRow(repr, Entry(row)) && IsScored(Entry(row)) && Entry(row) in cs
  {
    hide Sort, RankedRow, IsScored;
    var row := Ranked(repr, cs)[i];
    SortPermutes(RankedRows(repr, cs), ByKey(KeyIn, KeyLe));
    assert row in multiset(Ranked(repr, cs));
    assert row in RankedRows(repr, cs);
    var k :| 0 <= k < |RankedRows(repr, cs)| && RankedRows(repr, cs)[k] == row;
    var c := Select(cs, IsScored)[k];
    assert row == RankedRow(repr, c);
    RowEntry(repr, c);
  }

  lemma RowEntry(repr: Float -> string, c: Candidate)
    ensures Entry(RankedRow(repr, c)) == c
  {
  }

  /**
   * Top-N only cuts: it returns the first min(n, total) items of the full order with
   * their 1-based ranks unchanged, the same total and the same unranked list.
   */
  lemma TopNIsPrefix(repr: Float -> string, cs: seq<Candidate>, n: nat)
    requires n > 0
    ensures var full, cut := RankingOf(repr, cs, None), RankingOf(repr, cs, Some(n));
            && |full.ranked| == full.totalRanked == cut.totalRanked == |Select(cs, IsScored)|
            && |cut.ranked| == (if n < full.totalRanked then n else full.totalRanked)
            && cut.ranked == full.ranked[..|cut.ranked|]
            && (forall i | 0 <= i < |cut.ranked| :: cut.ranked[i].rank == i + 1)
            && cut.unranked == full.unranked
  {
    hide Select, RankedRow, UnrankedRow, Sort;
    SortPermutes(RankedRows(repr, cs), ByKey(KeyIn, KeyLe));
  }

  // ---------------------------------------------------------------------------
  // What the order depends on
  // ---------------------------------------------------------------------------

  lemma RowsPermute(repr: Float -> string, cs: seq<Candidate>, ds: seq<Candidate>)
    requires multiset(cs) == multiset(ds)
    ensures multiset(RankedRows(repr, cs)) == multiset(RankedRows(repr, ds))
    ensures multiset(UnrankedRows(repr, cs)) == multiset(UnrankedRows(repr, ds))
  {
    hide Select, RankedRow, UnrankedRow;
    SelectPermutes(cs, ds, IsScored);
    SelectPermutes(cs, ds, NotRanked);
    MapPermutes(Select(cs, IsScored), Select(ds, IsScored), ToRanked(repr));
    MapPermutes(Select(cs, NotRanked), Select(ds, NotRanked), ToUnranked(repr));
  }

  /** Whatever order the candidates come in, the ranked and the unranked sort keys come out the same. */
  lemma ShuffleInvariant(repr: Float -> string, cs: seq<Candidate>, ds: seq<Candidate>)
    requires multiset(cs) == multiset(ds)
    ensures Map(Ranked(repr, cs), KeyIn) == Map(Ranked(repr, ds), KeyIn)
    ensures Map(Unranked(repr, cs), KeyIn) == Map(Unranked(repr, ds), KeyIn)
    ensures Admitted(cs) <==> Admitted(ds)
  {
    hide KeyLe, WordsLe, Select, Sort, RankedRows, UnrankedRows, RefusalOf;
    KeysOrdered();
    WordsOrdered();
    RowsPermute(repr, cs, ds);
    MapPermutes(RankedRows(repr, cs), RankedRows(repr, ds), KeyIn);
    MapPermutes(UnrankedRows(repr, cs), UnrankedRows(repr, ds), KeyIn);
    SortMapsKeys(RankedRows(repr, cs), KeyIn, KeyLe);
    SortMapsKeys(RankedRows(repr, ds), KeyIn, KeyLe);
    SortMapsKeys(UnrankedRows(repr, cs), KeyIn, WordsLe);
    SortMapsKeys(UnrankedRows(repr, ds), KeyIn, WordsLe);
    SortCanonical(Map(RankedRows(repr, cs), KeyIn), Map(RankedRows(repr, ds), KeyIn), KeyLe);
    SortCanonical(Map(UnrankedRows(repr, cs), KeyIn), Map(UnrankedRows(repr, ds), KeyIn), WordsLe);
    assert forall c :: c in cs <==> c in multiset(cs);
    assert forall c :: c in ds <==> c in multiset(ds);
  }

  /** No two different scored candidates have the same four-level key. */
  ghost predicate KeysSeparate(repr: Float -> string, cs: seq<Candidate>) {
    forall c, d | c in cs && d in cs && IsScored(c) && IsScored(d)
        && RankedRow(repr, c).key == RankedRow(repr, d).key :: c == d
  }

  lemma TiesAreKeyTies(repr: Float -> string, cs: seq<Candidate>)
    ensures NoTies(RankedRows(repr, cs), ByKey(KeyIn, KeyLe)) <==> KeysSeparate(repr, cs)
  {
    hide KeyLe, Select, RankedRow;
    KeysOrdered();
    var rows, le := RankedRows(repr, cs), ByKey(KeyIn<RankKey>, KeyLe);
    assert forall x, y :: le(x, y) && le(y, x) <==> x.key == y.key;
    assert forall c :: c in Select(cs, IsScored) <==> c in cs && IsScored(c) by { SelectMembers(cs, IsScored); }
    forall c | c in cs && IsScored(c) ensures RankedRow(repr, c) in rows && Entry(RankedRow(repr, c)) == c {
      var k :| 0 <= k < |Select(cs, IsScored)| && Select(cs, IsScored)[k] == c;
      assert rows[k] == RankedRow(repr, c);
      RowEntry(repr, c);
    }
    forall x | x in rows ensures Entry(x) in cs && IsScored(Entry(x)) && RankedRow(repr, Entry(x)) == x {
      var k :| 0 <= k < |rows| && rows[k] == x;
      RowEntry(repr, Select(cs, IsScored)[k]);
    }
  }

  lemma {:induction false} SelectMembers<T>(s: seq<T>, p: T -> bool)
    ensures forall x :: x in Select(s, p) <==> x in s && p(x)
  {
    SelectCounts(s, p);
    assert forall x :: x in Select(s, p) <==> multiset(Select(s, p))[x] > 0;
    assert forall x :: x in s <==> multiset(s)[x] > 0;
  }

  lemma TwoRowsFirst(repr: Float -> string, c: Candidate, d: Candidate, rest: seq<Candidate>)
    requires IsScored(c) && IsScored(d)
    ensures RankedRows(repr, [c, d] + rest) == [RankedRow(repr, c), RankedRow(repr, d)] + RankedRows(repr, rest)
  {
    assert [c, d] + rest == [c] + ([d] + rest);
    SelectFirst(c, [d] + rest, IsScored);
    SelectFirst(d, rest, IsScored);
    hide Select, RankedRow, IsScored;
    var selected := Select(rest, IsScored);
    assert Select([c, d] + rest, IsScored) == [c, d] + selected;
    PairMaps(c, d, selected, ToRanked(repr));
  }

  lemma PairMaps<T, U>(c: T, d: T, s: seq<T>, f: T -> U)
    ensures Map([c, d] + s, f) == [f(c), f(d)] + Map(s, f)
  {
  }

  lemma SwappedFrontsDiffer(repr: Float -> string, c: Candidate, d: Candidate, rest: seq<Candidate>)
    requires IsScored(c) && IsScored(d) && c != d && RankedRow(repr, c).key == RankedRow(repr, d).key
    ensures Ranked(repr, [c, d] + rest) != Ranked(repr, [d, c] + rest)
  {
    hide KeyLe, RankedRow, Sort, RankedRows, IsScored;
    RowsPreordered();
    KeysOrdered();
    RowEntry(repr, c);
    RowEntry(repr, d);
    TwoRowsFirst(repr, c, d, rest);
    TwoRowsFirst(repr, d, c, rest);
    var le := ByKey(KeyIn<RankKey>, KeyLe);
    var tie := TieClass(RankedRow(repr, c), le);
    TieDiffers(RankedRow(repr, c), RankedRow(repr, d), RankedRows(repr, rest), le, tie);
  }

  /** Two different candidates with one key come out in the order they came in. */
  lemma TiedCandidatesMatter(repr: Float -> string, cs: seq<Candidate>, i: nat, j: nat)
    requires i < |cs| && j < |cs| && cs[i] != cs[j] && IsScored(cs[i]) && IsScored(cs[j])
    requires RankedRow(repr, cs[i]).key == RankedRow(repr, cs[j]).key
    ensures exists ds :: multiset(ds) == multiset(cs) && Ranked(repr, ds) != Ranked(repr, cs)
  {
    hide RankedRow, Ranked, IsScored;
    var rest := BringForward(cs, i, j);
    SwappedFrontsDiffer(repr, cs[i], cs[j], rest);
    var ds, es := [cs[i], cs[j]] + rest, [cs[j], cs[i]] + rest;
    if Ranked(repr, ds) == Ranked(repr, cs) {
      assert multiset(es) == multiset(cs);
    } else {
      assert multiset(ds) == multiset(cs);
    }
  }

  /**
   * The ranked list is a function of the multiset of candidates exactly when the
   * four levels tell any two different scored candidates apart.
   */
  lemma OrderIndependentExactly(repr: Float -> string, cs: seq<Candidate>)
    ensures KeysSeparate(repr, cs) <==> forall ds | multiset(ds) == multiset(cs) :: Ranked(repr, ds) == Ranked(repr, cs)
  {
    hide KeyLe, Select, RankedRow, Sort, RankedRows;
    RowsPreordered();
    TiesAreKeyTies(repr, cs);
    if KeysSeparate(repr, cs) {
      forall ds | multiset(ds) == multiset(cs) ensures Ranked(repr, ds) == Ranked(repr, cs) {
        RowsPermute(repr, cs, ds);
        SortWithoutTies(RankedRows(repr, cs), RankedRows(repr, ds), ByKey(KeyIn, KeyLe));
      }
    } else {
      var c, d :| c in cs && d in cs && IsScored(c) && IsScored(d) && RankedRow(repr, c).key == RankedRow(repr, d).key
          && c != d;
      var i :| 0 <= i < |cs| && cs[i] == c;
      var j :| 0 <= j < |cs| && cs[j] == d;
      TiedCandidatesMatter(repr, cs, i, j);
    }
  }

  lemma EqualContentEqualNodes(repr: Float -> string, c: Candidate, d: Candidate)
    requires Canonical.GoodRepr(repr) && PlainNode(c.node) && PlainNode(d.node)
    requires RankedRow(repr, c).key == RankedRow(repr, d).key
    ensures c.node == d.node
  {
    hide PlainNode, Canonical.GoodRepr, ContentText, IdentityText;
    assert RankedRow(repr, c).key.words[1] == ContentText(repr, c.node);
    assert RankedRow(repr, d).key.words[1] == ContentText(repr, d.node);
    ContentSeparates(repr, c.node, d.node);
  }

  /** Nodes whose strings avoid the closing characters, each scored by the scorer, rank in one way only. */
  lemma PlainNodesRankOnce(repr: Float -> string, f: TextFacts, cs: seq<Candidate>, ds: seq<Candidate>)
    requires Canonical.GoodRepr(repr) && multiset(cs) == multiset(ds)
    requires forall c | c in cs :: PlainNode(c.node) && c.outcome == ScoreNode(f, c.node)
    ensures Ranked(repr, ds) == Ranked(repr, cs)
  {
    hide PlainNode, Canonical.GoodRepr, RankedRow, Ranked, ScoreNode, IsScored;
    forall c, d | c in cs && d in cs && IsScored(c) && IsScored(d) && RankedRow(repr, c).key == RankedRow(repr, d).key
      ensures c == d
    {
      EqualContentEqualNodes(repr, c, d);
    }
    OrderIndependentExactly(repr, cs);
  }

  /**
   * The order is not a function of the multiset in general: two occurrences of one
   * configuration whose places differ only in where a comma sits come out in the order
   * they came in, because the content text does not escape it.
   */
  lemma OrderDependsOnInput(repr: Float -> string, n: Node, o: ScoreOutcome, g: GeoInfo, x: string, y: string,
                            z: string)
    requires o.status == Scored && Fits(x, y, z)
    ensures var c := Candidate(n.(geo := Some(CommaInCountry(g, x, y, z))), o);
            var d := Candidate(n.(geo := Some(CommaInCity(g, x, y, z))), o);
            && c != d && RankedRow(repr, c).key == RankedRow(repr, d).key
            && Ranked(repr, [c, d]) != Ranked(repr, [d, c])
  {
    hide IdentityText, ContentText, CommaInCountry, CommaInCity, Ranked;
    var c := Candidate(n.(geo := Some(CommaInCountry(g, x, y, z))), o);
    var d := Candidate(n.(geo := Some(CommaInCity(g, x, y, z))), o);
    ContentAmbiguous(repr, n, g, x, y, z);
    SwappedFrontsDiffer(repr, c, d, []);
    assert [c, d] + [] == [c, d] && [d, c] + [] == [d, c];
  }

  // ---------------------------------------------------------------------------
  // Ranking what the scorer produced
  // ---------------------------------------------------------------------------

  /** Outcomes that come from the scorer are never refused. */
  lemma ScoredIsAdmitted(f: TextFacts, c: Candidate)
    requires c.outcome == ScoreNode(f, c.node)
    ensures RefusalOf(c).None?
    ensures IsScored(c) ==> Measurable(c.node) && MsOf(c.node) == Ms(c.node)
  {
    hide ArchBonus, Round2, ProbeGate, NoOverflow, ScoreNode;
    ScoredExactly(f, c.node);
  }

  /**
   * Dominance: at equal total bonuses the node with strictly lower latency and no greater
   * jitter is ranked before the other one, even when rounding makes their scores equal.
   */
  lemma Dominance(repr: Float -> string, f: TextFacts, cs: seq<Candidate>, i: nat, j: nat)
    requires forall c | c in cs :: c.outcome == ScoreNode(f, c.node)
    requires i < |Ranked(repr, cs)| && j < |Ranked(repr, cs)|
    requires var a, b := Ranked(repr, cs)[i].node, Ranked(repr, cs)[j].node;
             && Measurable(a) && Measurable(b)
             && Bonus(f, a) == Bonus(f, b) && Ms(a) < Ms(b) && Jitter(a) <= Jitter(b)
    ensures i < j
  {
    hide Sort, RankedRows, ScoreNode, WordsLe, Bonus, IdentityText, ContentText;
    RowsKeyed(repr, cs, i);
    RowsKeyed(repr, cs, j);
    var p, q := Ranked(repr, cs)[i], Ranked(repr, cs)[j];
    ScoredIsAdmitted(f, Entry(p));
    ScoredIsAdmitted(f, Entry(q));
    ScoreMonotone(f, p.node, q.node);
    assert p.key.negScore <= q.key.negScore && p.key.ms < q.key.ms;
    assert !KeyLe(q.key, p.key);
    SortedPermutations(repr, cs);
  }

  /** What reaches the ranking from unmeasured nodes: each node after its own two probes, with the scorer's verdict. */
  ghost predicate Honest(t: TextFacts, f: Measure.ProbeFacts, credentials: bool, nodes: seq<Node>,
                         envs: seq<Measure.Session>, cs: seq<Candidate>) {
    && |nodes| == |envs| == |cs|
    && forall k | 0 <= k < |cs| ::
         && nodes[k].measuredLatency.None? && nodes[k].jitterMs.None?
         && cs[k].node == Measure.Attached(f, nodes[k], credentials, envs[k])
         && cs[k].outcome == ScoreNode(t, cs[k].node)
  }

  /** Ranked item `i` is node `k` after two genuine cycles, with probe 2's latency and an honest bonus. */
  ghost predicate EarnedBy(t: TextFacts, f: Measure.ProbeFacts, credentials: bool, n: Node, env: Measure.Session,
                           ranked: Node) {
    && ranked == Measure.Attached(f, n, credentials, env)
    && Measure.Probeable(f, n, credentials) && Measure.Genuine(f, n, env.first) && Measure.Genuine(f, n, env.second)
    && Measurable(ranked) && 0.0 < Ms(ranked) < LATENCY_GATE_MS
    && Ms(ranked) == Round2(Measure.WindowMs(env.second).r)
    && Jitter(ranked) == Round2(Abs(Round2(Measure.WindowMs(env.second).r) - Round2(Measure.WindowMs(env.first).r)))
    && ((n.protocol == VLESS && ArchBonus(t, ranked) == ("VLESS-TLS", 300))
        || (n.protocol == TROJAN && ArchBonus(t, ranked) == ("Trojan-TLS", 260)))
  }

  /** Along measure, score and rank no integrity error is raised and every rank was earned. */
  lemma NoFabricatedRank(repr: Float -> string, t: TextFacts, f: Measure.ProbeFacts, credentials: bool,
                         nodes: seq<Node>, envs: seq<Measure.Session>, cs: seq<Candidate>, i: nat)
    requires Honest(t, f, credentials, nodes, envs, cs)
    ensures Admitted(cs)
    ensures i < |Ranked(repr, cs)| ==>
              exists k :: 0 <= k < |nodes| && EarnedBy(t, f, credentials, nodes[k], envs[k], Ranked(repr, cs)[i].node)
  {
    hide RefusalOf, Ranked, ScoreNode, Measure.Attached, Measure.Genuine, Measure.Probeable, ArchBonus, Round2,
         Measure.WindowMs, RankedRow;
    forall c | c in cs ensures RefusalOf(c).None? {
      ScoredIsAdmitted(t, c);
    }
    if i < |Ranked(repr, cs)| {
      RowsKeyed(repr, cs, i);
      var c := Entry(Ranked(repr, cs)[i]);
      var k :| 0 <= k < |cs| && cs[k] == c;
      Measure.NoFabrication(t, f, nodes[k], credentials, envs[k]);
      assert EarnedBy(t, f, credentials, nodes[k], envs[k], c.node);
    }
  }
}
