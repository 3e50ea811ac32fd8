# A verified model of hubcore

`hubcore` turns lists of proxy configuration links into published files. A run ingests its
sources line by line, removes duplicates, asks the network about each surviving node (DNS,
geography, TCP, handshake, two-probe measurement), scores and ranks what was measured, renders
links into text and base64 files, and writes each file atomically. This project models that
pipeline in Dafny and proves what it promises. The network, the clock and the operating system
answer arbitrarily: every theorem holds for all their answers.

The modules follow the program.

| program file | modules | form |
|---|---|---|
| `writer.py` | `Paths`, `WriterProtocol`, `WriterSafety`, `WriterOutcomes`, `Writer` | a transition system for concurrent calls, and a class `Volume` whose methods write one file or a plan |
| `ingest.py`, `dedup.py` | `Ingest`, `Dedup` | loops proved equal to specification functions, with laws about those |
| `pipeline.py` | `Sources`, `Stages`, `StageOutcomes`, `Audit`, `AuditRows`, `Verdicts`, `Conservation`, `Totals`, `Pipeline` | loops over the wrappers, the table of audit rows overwritten in place, and what the table means |
| `handshake.py`, `measure.py`, `scoring.py` | `Numbers`, `Handshake`, `Measure`, `Scoring`, `Answers` | read loops over a scripted peer, an outcome object filled step by step, the gated formula, and what the stages make of these answers |
| `ranking.py` | `Sorting`, `Canonical`, `NodeText`, `Ranking`, `RankOrder` | the canonical printer and its unique reading, the stable sort, the ranking loop |
| `resolver.py` | `NameResolution` | a cache object refining a history of operations |
| `parsing/`, `model.py`, `identity.py` | `Model`, `Encoding`, `Parsing`, `LinkCuts`, `LinkFields`, `LinkReads`, `Renaming`, `Queries` | the parsers as functions, and what a node's identity depends on |
| `output.py` | `Output`, `Groups`, `BundleContents`, `Publishing` | rendering, grouping loops, and the way from ranked entries to files |

Text routines of Python's library whose tables are not reproduced (case mapping, white space,
`ipaddress`, Unicode normalisation, percent-decoding of arbitrary bytes, hashes) are
function-valued fields of records such as `Casing`, `UrlLib`, `LineFacts` and `World`. A theorem
that needs a law of one of them names it in a predicate called `Lawful`, `CasingLawful`, `OutputLawful`,
`VmessLawful`, `GoodRepr`, `Faithful` or `MeasuresNothing`; everything else holds for any function
whatsoever. All these laws can be met: `Laws.LawsMeetable` and `Canonical.GoodReprExists` give
functions that meet them, and `Pipeline.ParserServesRun` shows that the modelled parser does.

## Where the code and its documentation disagree

The model follows the code.

* `ranking.py:337-338` says the order depends only on the multiset of candidates. It does not:
  strings are printed unescaped, so two different occurrences of one configuration can tie on all
  four levels and then keep their input order (`Ranking.OrderDependsOnInput`). The claim holds
  exactly when the levels separate the candidates (`Ranking.OrderIndependentExactly`), in
  particular when no string holds a structural character (`Ranking.PlainNodesRankOnce`).
* `pipeline.py:19-24` says that one node's failure at a live stage never raises out of the pipeline and
  that a run fails closed only on the caller's own inputs. Rendering and writing are not guarded. A source line such
  as `vless://<uuid>@h:443?<TAB>security=tls` is accepted, because `urlsplit` drops the tab while the
  node keeps it (`Publishing.TabbedLinkRefused`); once ranked it aborts the run, and the audit of all
  other lines is lost. Countries named like a device, or alike up to case, do the same.
  `Pipeline.RunPipeline` gives the exact condition, `Pipeline.RefusedByLineExactly` its part about
  source lines, and `Publishing.BundlePlannableExactly` its part about countries.
* The scorer's non-finite branch is reachable from finite input (`Scoring.NonfiniteScoreReachable`,
  for a node handed to the scorer directly). For a node that was just measured it is reached exactly
  when the jitter penalty overflows (`Measure.NonfiniteScoreExactly`), which takes a clock that jumps
  (`Measure.HostileClockUnscorable`).
* `output.py:426-436` refuses control characters only in front of the `#`, and the vmess fallback
  emits the raw text whole. A link given to the parser with a line break in its fragment is then
  rendered as two lines (`Publishing.FallbackReachable`); this is the one exception
  (`Output.LinkIsLineExactly`). A run never meets it, as its source lines hold no line break
  (`Pipeline.RunUnbroken`), so its files have the lines it reports (`Pipeline.RunFramed`).
* Pinning an address builds the endpoint again and so decodes its host again: a host text with two
  layers of percent-encoding becomes another one (`Stages.HostDecodedAgain`).
* Source names are numbered to be unique, which fails when one label already looks like a numbered
  other one; `Sources.NamesUniqueExactly` gives the exact condition.
* Legacy base64 `ss://` links store the display name as a protocol field, so renaming one changes
  its identity unless the name already reads the same (`Queries.LegacyRenameExactly`).
* Putting a key that is still cached does not move it to the end, so insertion order then stops
  being expiry order (`NameResolution.RefreshBreaksOrder`). The resolver puts only after a miss,
  and there the order holds (`NameResolution.OrderIsExpiry`).
* Query names are lower-cased, so a parser's lookup of `pinSHA256` never matches. The model keeps it.

## Model

| member | source | states |
|---|---|---|
| WriterSafety.StepInv | hubcore/writer.py:373-480 | every step of any call keeps the protocol invariant: the call's own step, a failing operating-system step, the death of a process, a power loss |
| WriterSafety.ExecutionInv | hubcore/writer.py:373-480 | hence every reachable state satisfies it |
| WriterSafety.NeverTorn | hubcore/writer.py:396-480 | at every moment of every interleaving, a target holds its initial contents or the complete payload of one call on it, never a prefix or a mixture |
| WriterSafety.NeverMissing | hubcore/writer.py:427-480 | a target that existed at the start is never seen missing without a power loss |
| WriterSafety.Linearizable | hubcore/writer.py:396-480 | the files are exactly the logged events replayed in order; a call returns `changed=False` only where the target held its payload at that point, and every returned result is backed by its own event |
| WriterSafety.MutualExclusion | hubcore/writer.py:373-383 | two calls of one process on the same target are never inside the locked section together |
| WriterSafety.LastHolderDecides | hubcore/writer.py:396-424 | when one process writes a target, a call about to leave the section successfully leaves exactly its payload |
| WriterSafety.LastReplaceDecides | hubcore/writer.py:427-480 | whichever processes write a target, short of power loss it shows the payload of the last call that replaced it |
| WriterSafety.UnreplacedKept | hubcore/writer.py:427-480 | a target that no call replaced keeps its initial contents, or stays absent |
| WriterSafety.NoDebris | hubcore/writer.py:427-480 | every call that ended closed each descriptor it opened, at most one, exactly once; when all have ended the only new temporary names are leaked ones, and without unlink failures and crashes none leaks |
| WriterSafety.NothingLeaked | hubcore/writer.py:347-354 | an execution without failing unlinks, crashes or power loss leaks no temporary file |
| WriterOutcomes.OnlySkippersKeep | hubcore/writer.py:396-424 | in every reachable state, only a call with `skip_identical` can have kept a file or report `changed=False` |
| WriterOutcomes.FreshWriteReplaces | hubcore/writer.py:419-480 | a call without it, alone and with all its operations working, replaces its target and reports `changed=True`, also when the file held the same bytes before |
| WriterOutcomes.IdenticalIsKept | hubcore/writer.py:386-424 | a call with it whose target holds its payload ends with `changed=False`, touching nothing |
| WriterOutcomes.ReportsWhatFailed | hubcore/writer.py:396-480 | a call that raises names exactly the operation of its own that failed, and no call raises without one |
| Paths.FirstError | hubcore/writer.py:207-244 | no complaint is raised exactly when no segment deserves one |
| Paths.AcceptedExactly | hubcore/writer.py:207-244 | a path is accepted if and only if it is nonempty, within the length limit, free of NUL, relative, without a drive, and each segment is sound; the result only turns backslashes into slashes |
| Paths.ValidateIdempotent | hubcore/writer.py:207-244 | validating an accepted path again gives the same path |
| Paths.Contained | hubcore/writer.py:207-255 | from any root an accepted path leads strictly below the root, one level down with each segment |
| Paths.LandsAsFolded | hubcore/writer.py:285-300 | stripping trailing dots and spaces changes no accepted path, so it lands on its case-folded name |
| Paths.SegmentTable | hubcore/writer.py:229-243 | which complaint a segment gets, device names spelled out |
| Paths.RefusalTable | hubcore/writer.py:207-244 | which complaint a path gets: length, NUL, root, drive, or that of its first unsound segment |
| Writer.PlanOutputs | hubcore/writer.py:272-301 | a bundle is planned exactly when every path is accepted and no two alias; otherwise the error is that of the first faulty artifact |
| Writer.PlanIsAliasFree | hubcore/writer.py:285-300 | no two artifacts of an accepted plan land on one file, even where case and trailing dots are ignored |
| Writer.PlanIsCanonical | hubcore/writer.py:272-301 | planned paths are canonical and pairwise different |
| Writer.Volume.SameBytes | hubcore/writer.py:386-393 | answers true only for a file that holds exactly the data; an unreadable one counts as different |
| Writer.Volume.AtomicReplace | hubcore/writer.py:427-480 | succeeds exactly when no operation fails; on success the target holds exactly the payload; on failure no file changed; descriptors are closed either way, and a temporary file remains only if an unlink failed |
| Writer.Volume.WriteBytes | hubcore/writer.py:396-424 | a refused path or a failed step leaves all files alone; success leaves the target with the data, all others as before, and reports `unchanged` only under `skip_identical` |
| Writer.Volume.WriteText | hubcore/writer.py:483-491 | the same for the UTF-8 encoding of a text at a planned path |
| Writer.Volume.WriteOutputs | hubcore/writer.py:494-515 | a failure at artifact k leaves those before k published and every other file as it was; success publishes all, reports them in order, and rewrites nothing that is already installed |
| Writer.CountsSnoc | hubcore/writer.py:509-515 | the counters of an outcome count just the changed files, and their bytes |
| Writer.PublishArtifacts | hubcore/writer.py:494-515 | planning comes first: a refused plan touches nothing, and a failing operation leaves exactly the artifacts before it published |
| Writer.PublishInstalls | hubcore/writer.py:494-515 | every published artifact reads back as exactly its encoded text |
| Writer.PublishSpares | hubcore/writer.py:494-515 | files the plan does not name are left alone |
| Writer.FoldedInstalls | hubcore/writer.py:285-300 | even on a case-insensitive volume every artifact of an accepted plan reads back whole |
| Writer.Republish | hubcore/writer.py:494-515 | after a first success, publishing the same plan again with `skip_identical` changes no file, whatever fails, and writes nothing and no byte when nothing fails |
| Ingest.LinesUnbroken | hubcore/ingest.py:191-195 | no line of a source text holds any character that `splitlines` cuts at |
| Ingest.LinesReadBack | hubcore/ingest.py:191-195 | unbroken lines written with LF or CRLF after each are read back exactly |
| Ingest.BreaksExactly | hubcore/ingest.py:191-195 | the ten characters that break lines, CRLF being one break, and the byte order mark that is dropped |
| Ingest.VerdictTable | hubcore/ingest.py:207-236 | which lines are blank, rejected for no scheme, for their length or by the parser, and which are nodes |
| Ingest.IngestText | hubcore/ingest.py:207-236 | the line loop gives the specified nodes, errors and counters |
| Ingest.NodeComesFrom | hubcore/ingest.py:207-236 | each node carries the number, the hash and the verdict of exactly its own line |
| Ingest.ErrorComesFrom | hubcore/ingest.py:207-236 | each error names its own line and why that line is rejected |
| Ingest.LineLeaves | hubcore/ingest.py:207-236 | no nonblank line disappears: it leaves its node or its error |
| Ingest.LinesIncrease | hubcore/ingest.py:207-236 | line numbers strictly increase among nodes and among errors |
| Ingest.CountersAgree | hubcore/ingest.py:117-133 | lines seen = parsed + rejected + blank, and nodes = parsed = the sum of the per-protocol counts |
| Ingest.AddCounts | hubcore/ingest.py:151-184 | the summing loop gives the pointwise sum of the two count tables |
| Ingest.Merge | hubcore/ingest.py:151-184 | merging gives the specified result |
| Ingest.MergeSpelled | hubcore/ingest.py:151-184 | a merged result holds both lists in order, the second renumbered after the lines of the first, with the counters added up and the origins joined |
| Ingest.IngestSplits | hubcore/ingest.py:151-236 | ingest is a homomorphism: cutting a line list anywhere and merging the results equals ingesting the whole |
| Ingest.MergeAssociates | hubcore/ingest.py:151-184 | merging is associative on nodes, errors and all counters |
| Dedup.DedupNodes | hubcore/dedup.py:114-134 | the single pass gives the specified survivors, dropped and occurrence counts; every policy but `first` is refused |
| Dedup.DuplicatesExactly | hubcore/dedup.py:68-79 | two nodes are duplicates if and only if their dialled hosts agree canonically and every other part of their configurations is equal |
| Dedup.CanonicalSpelled | hubcore/dedup.py:48-65 | a canonical host is stripped, in lower case, without the brackets of an address and without one trailing dot |
| Dedup.OccurrencesCounted | hubcore/dedup.py:124-133 | the counter of a key is how often the key occurs |
| Dedup.KeptExactly | hubcore/dedup.py:124-133 | exactly the first occurrences of a key survive |
| Dedup.DroppedExactly | hubcore/dedup.py:124-133 | exactly the later occurrences are dropped, so sharing an endpoint is not enough |
| Dedup.DedupConserves | hubcore/dedup.py:114-134 | survivors and dropped together are the input, as multisets |
| Dedup.KeptDistinct | hubcore/dedup.py:68-79 | no two survivors share a key |
| Dedup.Represented | hubcore/dedup.py:114-134 | each input configuration is represented among the survivors |
| Dedup.GroupsAreSurvivors | hubcore/dedup.py:128-133 | there is one occurrence group for each survivor, and exactly the keys seen have one |
| Dedup.DedupIdempotent | hubcore/dedup.py:114-134 | deduplicating the survivors again drops nothing |
| Stages.SurvivorFrom | hubcore/pipeline.py:370-551 | a stage's survivors are exactly the kept input wrappers with their node replaced |
| Stages.ResolveNodes | hubcore/pipeline.py:370-416 | the DNS loop keeps resolved nodes in order and reports on every input |
| Stages.GeoStage | hubcore/pipeline.py:419-439 | the geography loop loses nobody |
| Stages.TcpStage | hubcore/pipeline.py:442-477 | the TCP loop keeps connected nodes in order and reports on every input |
| Stages.HandshakeStage | hubcore/pipeline.py:480-517 | the same for the handshake loop |
| Stages.MeasureStage | hubcore/pipeline.py:520-551 | the same for measurement, through the measurer's own guarded updates |
| Stages.DnsKeepsConfig | hubcore/pipeline.py:370-416 | `config_key` after the stage is the former one with the pinned address as identity host; the port stays, and the host text stays if and only if cleaning it once more does not change it |
| Stages.HostDecodedAgain | hubcore/model.py:47-51 | a host read from `a%2541.x` becomes another host text when it is pinned |
| Stages.GeoKeepsConfig | hubcore/pipeline.py:419-439 | the geography stage changes neither `config_key` nor the endpoint nor the raw text |
| Stages.TcpKeepsConfig | hubcore/pipeline.py:442-477 | the TCP stage does to a node what the DNS stage does when the dial pinned an address, and otherwise changes nothing of it that identifies it |
| Stages.HandshakeKeepsConfig | hubcore/pipeline.py:480-517 | the handshake stage changes neither `config_key` nor the endpoint nor the raw text |
| Stages.MeasureKeepsConfig | hubcore/pipeline.py:520-551 | nor does measurement |
| StageOutcomes.DnsOutcome | hubcore/pipeline.py:370-416 | the DNS stage case by case: a literal is pinned to itself and nobody asked; else the first public address is pinned, or the line is lost for the stated reason |
| StageOutcomes.GeoOutcome | hubcore/pipeline.py:419-439 | the geography stage passes every node with its place, named by flag, country and city before its former name |
| StageOutcomes.TcpOutcome | hubcore/pipeline.py:442-477 | the TCP stage case by case, with the sample it attaches and the address it pins |
| StageOutcomes.HandshakeOutcome | hubcore/pipeline.py:480-517 | the handshake stage case by case |
| StageOutcomes.MeasureOutcome | hubcore/pipeline.py:520-551 | the measurement stage case by case |
| StageOutcomes.ReportsSpelled | hubcore/pipeline.py:370-551 | each report names its line, the node before the stage, the stage, and why the line was lost if it was |
| Audit.IndexWrappers | hubcore/pipeline.py:676 | the dictionary from scored nodes to wrappers, later entries winning |
| Audit.MergeNodeReports | hubcore/pipeline.py:597-688 | the rows overwritten in place are those of the specified table, listed in (origin, line, hash) order |
| AuditRows.RowsSpelled | hubcore/pipeline.py:597-688 | the rows in terms of the run: one for each line, spelled out for rejected, dropped, failed, scored and unscored ones; the row of a line ranked by an item has its score and its rank, and every row that no item ranks has neither |
| AuditRows.TableInOrder | hubcore/pipeline.py:686-688 | the rows come in the order of origin, then line number, then hash |
| AuditRows.EndpointTextReads | hubcore/pipeline.py:262-270 | the endpoint text of a row is host and port, with brackets around a host that has colons |
| AuditRows.FirstErrorWins | hubcore/pipeline.py:619-628 | of several errors of one line the first is told, also where the line has a node |
| AuditRows.FirstNodeWins | hubcore/pipeline.py:630-635 | of several nodes of one line without an error the first is told |
| AuditRows.OneReport | hubcore/pipeline.py:644-665 | a stage report changes the row of its own line only: a failure overwrites status, stage and reason, a success nothing, and a line never heard of gets a row of its own |
| AuditRows.OneDrop | hubcore/pipeline.py:636-641 | a duplicate changes the row of its own line only, which becomes dropped at dedup, also where there was none |
| AuditRows.OneRank | hubcore/pipeline.py:675-684 | a ranked item changes only the row of the line whose wrapper carries its node, and there only score and rank; an item that joins to no row changes nothing |
| Verdicts.StageRow | hubcore/pipeline.py:644-665 | one stage's reports take each line's row from its former fate to its next one: a failure overwrites, a success never does |
| Verdicts.LiveRow | hubcore/pipeline.py:644-665 | after all live stages a line's row names the one stage that lost it, and its wrapper is measured exactly if none did |
| Verdicts.JoinsBack | hubcore/pipeline.py:675-684 | each ranked item is joined back to the scored wrapper that carries its node |
| Verdicts.RankRow | hubcore/pipeline.py:675-684 | a surviving line gets the score and rank of the item with its node, and otherwise none |
| Conservation.OneRowPerLineExactly | hubcore/pipeline.py:619-635 | there is one row for each rejected or parsed line exactly when no two lines share (origin, line) |
| Conservation.MeasuredNodesDistinct | hubcore/dedup.py:125-133 | what reaches the scorer are pairwise different nodes, whatever the stages answered |
| Conservation.RankingJoins | hubcore/pipeline.py:675-684 | any Top-N of the ranking of these nodes meets what the join-back needs |
| Conservation.VerdictPerLine | hubcore/pipeline.py:597-688 | the in-place merge gives each line exactly one row, in order, equal to the verdict computed from that line alone |
| Totals.LineConservation | hubcore/pipeline.py:597-688 | rejected + dropped + failed (per live stage) + unranked + ok rows are all rows, and each count is the one that the ingest, the dedup, the stage or the scorer reported |
| Totals.RankBijection | hubcore/pipeline.py:675-684 | every rank 1..k is on the row of one scored line and only there, and no other row has a rank |
| Sources.RunSources | hubcore/pipeline.py:304-356 | a broken source is recorded and skipped, each source gets its numbered name, and the others are merged in order |
| Sources.ReportSpelled | hubcore/pipeline.py:331-356 | the report of each source counts the lines, nodes and rejections of that source, nothing for a broken one |
| Sources.NamesUniqueExactly | hubcore/pipeline.py:320-323 | the names are pairwise different if and only if no label equals a repeated label's numbered form |
| Sources.NameSpelled | hubcore/pipeline.py:304-330 | the first source of a label keeps it, the k-th one has `#k` appended |
| Sources.LabelSpelled | hubcore/pipeline.py:304-330 | a source is labelled by its name, or else the start of its url or path, stripped, or else by its number |
| Sources.LinesOfRun | hubcore/pipeline.py:304-356 | then the lines of the merged result have distinct keys and each node is what its raw line parses to |
| Sources.SourceLineUnbroken | hubcore/pipeline.py:325-335 | so no line of any source of a run holds one |
| Sources.RunRead | hubcore/pipeline.py:325-351 | every node of the merged result is what the parser makes of some source line |
| Sources.NothingRead | hubcore/pipeline.py:325-356 | when every source is broken, the merged result is empty |
| Pipeline.ScoreStage | hubcore/pipeline.py:557-591 | every measured node is judged and handed to the ranking; none is filtered |
| Pipeline.LiveStages | hubcore/pipeline.py:723-769 | each live stage works on the survivors of the one before, and the stage counters are the sizes of these lists |
| Pipeline.RunPipeline | hubcore/pipeline.py:694-809 | a run succeeds if and only if the caller's inputs are sound, the link of every ranked node can be printed and, when it writes, the destination is usable, the countries can be told apart as files and no write operation fails; then its counters, ranking, files and audit are consistent for all sources and all answers of the outside world, and otherwise no file changed but the first artifacts of a failing write |
| Pipeline.EntriesSpelled | hubcore/pipeline.py:771-788 | what a run renders are the ranked nodes with their outcomes, in rank order, and what it lists are the verdicts of the others |
| Pipeline.RankSources | hubcore/pipeline.py:714-781 | ingest to ranking, refused only for the dedup policy, the ranking policy or N |
| Pipeline.RenderAndWrite | hubcore/pipeline.py:783-801 | each way in which the last two stages raise, what they leave on disk then, and what they publish otherwise |
| Pipeline.AuditRun | hubcore/pipeline.py:802-807 | the audit of a run has one row for each line, agrees with the counters and carries the ranks on the right rows |
| Pipeline.RunUnbroken | hubcore/ingest.py:191-195 | no raw text of a run holds a carriage return or a line feed |
| Pipeline.RankedFromLine | hubcore/pipeline.py:370-591 | every ranked node still carries the stripped text of a source line |
| Pipeline.EarnedInRun | hubcore/pipeline.py:520-591 | every ranked item of a run is a node that reached measurement unmeasured and went through two genuine cycles there, with their latency, jitter and bonus |
| Pipeline.RefusedByLineExactly | hubcore/output.py:426-436 | rendering a run is refused if and only if some source line with an empty or controlled text before its fragment was ranked |
| Pipeline.RunFramed | hubcore/pipeline.py:783-788 | every text file of the run holds exactly as many lines as are reported for it |
| Pipeline.ParserServesRun | hubcore/parsing/parsers.py:561-568 | the modelled parser records its stripped input and measures nothing, and so meets what a run asks of a parser |
| NameResolution.RunSound | hubcore/resolver.py:164-190 | after any operations the cache is within its bound and each entry is the latest answer put for its key |
| NameResolution.HitIsLatest | hubcore/resolver.py:172-187 | a hit is the most recently cached answer for that (host, port), no older than the TTL |
| NameResolution.OrderIsExpiry | hubcore/resolver.py:182-187 | under a monotone clock, used as the resolver does, insertion order is expiry order |
| NameResolution.EvictionIsNearestExpiry | hubcore/resolver.py:182-187 | eviction removes an entry no other one expires before |
| NameResolution.PutKeepsOrderExactly | hubcore/resolver.py:182-187 | a put keeps the order exactly when its key is absent or all entries after it expire at the same moment |
| NameResolution.RefreshBreaksOrder | hubcore/resolver.py:182-187 | a concrete refresh after which the order is no longer the expiry order |
| NameResolution.TTLCache.Get | hubcore/resolver.py:172-180 | returns the unexpired entry and drops an expired one |
| NameResolution.TTLCache.Put | hubcore/resolver.py:182-187 | evicts the oldest insertions down to the bound and then stores |
| NameResolution.AddressesExactly | hubcore/resolver.py:258-276 | an address is retained exactly when some well-formed row of the answer holds it |
| NameResolution.Collect | hubcore/resolver.py:258-276 | the two address lists are the well-formed rows of each family, in order, each once |
| NameResolution.Resolver.Resolve | hubcore/resolver.py:212-289 | empty names and literals need no transport; otherwise the cached record, or the answer, which is then cached except for a malformed name |
| NameResolution.DirectExactly | hubcore/resolver.py:212-229 | an empty name is invalid; an address, bracketed or not, is its own answer in its own family, without asking anyone |
| NameResolution.AnswersNamed | hubcore/resolver.py:230-285 | which status and error each failure of the transport gives, and that the addresses kept are the first ones said |
| NameResolution.AnswerMeans | hubcore/resolver.py:235-289 | a record is OK exactly when some row of the answer is an address; it holds at most 64 addresses of each family, only and (below that cap) all that the transport said; a record that is not OK holds none and gives a reason |
| Handshake.Collect | hubcore/handshake.py:345-366 | the bounded loop fails exactly when the first read does, and its data is a prefix of the stream |
| Handshake.Shake | hubcore/handshake.py:314-390 | the outcome depends on TLS, the request and the first read alone, although the loop reads on; success exactly on all three, and a latency only then: the window between the two clock readings in milliseconds, rounded |
| Handshake.ShakeTable | hubcore/handshake.py:314-390 | every way a handshake ends: each failing step with its status and reason, and a VLESS reply with first byte 0 or any Trojan reply as a sample of that protocol |
| Measure.VlessRequestSpelled | hubcore/handshake.py:128-135 | the VLESS request: version 0, the UUID and 39 zeros |
| Measure.TrojanRequestSpelled | hubcore/handshake.py:136-143 | the Trojan request: the digest of the password, and HTTP to relay to port 80 of example.com |
| Handshake.WindowMonotone | hubcore/handshake.py:368 | on a monotonic clock that latency is never negative, and finite unless the window itself overflows |
| Handshake.Validate | hubcore/handshake.py:249-311 | the pinned target, its kind and the protocol gate come before the connection, and that before the handshake |
| Handshake.ValidationTable | hubcore/handshake.py:249-311 | what keeps a node from being dialled, with status and reason |
| Scoring.GateTable | hubcore/handshake.py:95-125 | exactly VLESS over TLS and credentialled Trojan, both over plain TCP, pass the gate; any other node is told what stands in the way |
| Handshake.ValidatedExactly | hubcore/handshake.py:249-390 | validation succeeds if and only if the node may be probed, connects and is greeted; a sample exists only then |
| Answers.HandshakeJoined | hubcore/pipeline.py:480-517 | with the validator's own answer a node passes the handshake stage if and only if it may be probed, connects and is greeted, and then carries that handshake's sample |
| Answers.PublicIpsExactly | hubcore/resolver.py:130-137 | the public addresses of a record are the canonical texts of exactly its public addresses |
| Answers.DnsJoined | hubcore/pipeline.py:370-416 | with the resolver's own record a node that is no literal passes the DNS stage if and only if the record holds a public address, and is pinned to one that the transport said |
| Handshake.SameReplies | hubcore/measure.py:308-337 | the measurer's loop, which stops at the first qualifying byte, accepts exactly the replies that the handshake's loop, which reads on, accepts |
| Measure.RepliesExactly | hubcore/handshake.py:146-160 | the stream of reads qualifies if and only if the first read delivers bytes that begin with 0 from VLESS, or any bytes from Trojan; from another protocol none do |
| Measure.DialSpelled | hubcore/measure.py:158-166 | the pinned address is dialled, or else a literal host, without brackets; never another name |
| Measure.WindowSpelled | hubcore/measure.py:336-345 | the window is the difference of the two readings in milliseconds, a number exactly when both are and nothing overflows |
| Measure.ReadReply | hubcore/measure.py:308-337 | the read loop succeeds exactly when the first read delivers a VLESS reply that begins with byte 0 or any Trojan reply; else it ends with the first of at most four reads that fails, or short of shape |
| Measure.ProbeCycle | hubcore/measure.py:270-350 | a cycle is ok exactly on a genuine round trip (dialled, TLS up, request built and sent, such a reply, a sane clock) and then reports the rounded window; otherwise it reports no number, and status and reason name the step that failed |
| Measure.TwoProbes | hubcore/measure.py:192-235 | the outcome's fields after both cycles: samples and jitter only from genuine cycles, a failed second one leaving a partial success |
| Measure.MeasureNode | hubcore/measure.py:150-235 | the same from the gate and the dial target on |
| Measure.Attach | hubcore/measure.py:237-258 | attaching is never refused by the model's guards, and gives the specified node |
| Measure.NoFabrication | hubcore/measure.py:192-258 | an unmeasured node that ends up scored had two genuine cycles, carries probe 2's latency inside the gate and the rounded difference as jitter, and one of the two reachable bonuses |
| Measure.NonfiniteScoreExactly | hubcore/scoring.py:208-219 | a freshly measured node misses its score by overflow if and only if the jitter penalty overflows; its rounded latency never causes that |
| Measure.HostileClockUnscorable | hubcore/measure.py:220-233 | and a clock that jumps far enough during the first probe does cause it |
| Scoring.RawScoreExactly | hubcore/scoring.py:205-220 | the formula is finite exactly when no intermediate overflows, and is then 1000/ms − weight·jitter + bonuses |
| Scoring.ScoredExactly | hubcore/scoring.py:139-234 | a node is scored if and only if the gate lets it through, its latency and jitter are usable and nothing overflows; a score exists only then |
| Scoring.ScoreSpelled | hubcore/scoring.py:205-234 | the score in numbers: 1000/ms - 1.5 jitter + 300 for VLESS or 260 for Trojan + 100 on nine ports, to two decimals, with its components to four |
| Scoring.RefusedTable | hubcore/scoring.py:155-219 | why a node has no score, in the order in which it is asked |
| Scoring.PortTable | hubcore/scoring.py:84-85 | 100 points for each of nine ports, and none for any other |
| Scoring.RealityBonus | hubcore/scoring.py:109-122 | label and bonus of a REALITY node by flow, padding, transport and service name |
| Scoring.PlainBonus | hubcore/scoring.py:107-136 | label and bonus of any other node by transport, protocol and host |
| Scoring.ScoredBonus | hubcore/scoring.py:98-136 | past the gate only VLESS over TLS (300) and Trojan (260) remain |
| Scoring.NonfiniteScoreReachable | hubcore/scoring.py:215-219 | a finite positive latency that makes the score overflow |
| Scoring.OverflowExactly | hubcore/scoring.py:208-219 | past the gate a measured node is unscorable exactly when some term of the formula overflows |
| Scoring.ScoreMonotone | hubcore/scoring.py:205-232 | at equal bonuses a lower latency and no greater jitter never score lower |
| Numbers.Round2Monotone | hubcore/scoring.py:205-232 | rounding to two decimals, halves to even, keeps the order |
| Numbers.Round2Spelled | hubcore/scoring.py:228-232 | a number rounds to the nearest hundredth, to the even one of two |
| Numbers.RoundedRational | hubcore/measure.py:338-345 | a rounded number can be written down |
| Canonical.ValueReads | hubcore/ranking.py:156-197 | a printed value, with numbers that can be written down and strings that avoid the structural characters, can be read off the front of a text in one way only |
| Canonical.ItemsRead | hubcore/ranking.py:156-197 | so can the items of a printed sequence |
| Canonical.FieldsRead | hubcore/ranking.py:156-197 | and the names and values of a printed record's fields |
| Canonical.GoodReprExists | hubcore/ranking.py:156-197 | what these results ask of `repr` on floats (to tell writable numbers apart, without structural characters) is met by a function |
| NodeText.ContentSeparates | hubcore/ranking.py:200-207 | the level-4 text is injective on nodes whose strings avoid the structural characters and whose numbers can be written down |
| NodeText.ContentAmbiguous | hubcore/ranking.py:156-207 | otherwise two different nodes of one configuration can share it |
| Sorting.SortStable | hubcore/ranking.py:391-392 | tied elements keep their order |
| Sorting.OrderIrrelevantExactly | hubcore/ranking.py:389-392 | the input order is irrelevant if and only if only equal elements tie |
| Ranking.KeysOrdered | hubcore/ranking.py:367-374 | the four levels are one total order |
| Ranking.RankCandidates | hubcore/ranking.py:334-410 | refused for a bad policy or N first, then for the first contradictory outcome; otherwise ranked in full |
| Ranking.SortedPermutations | hubcore/ranking.py:360-403 | the ranked and the unranked lists are sorted permutations of their class |
| Ranking.TopNIsPrefix | hubcore/ranking.py:394-410 | Top-N is the first min(n, total) items with unchanged 1-based ranks, total and unranked list |
| RankOrder.RankedByLevels | hubcore/ranking.py:367-374 | of two ranked candidates the earlier one has the higher score, or the same and the lower latency, or both the same and the smaller identity text, or that too and no greater content text |
| RankOrder.UnrankedByLevels | hubcore/ranking.py:377-386 | the unranked come by status text, then detail, then identity text, then content text |
| RankOrder.RankingSpelled | hubcore/ranking.py:334-410 | a ranking in terms of its candidates: rank `i + 1` for item `i`, each item outranking those after it, as many ranked and unranked as candidates before the cut |
| RankOrder.AdmittedExactly | hubcore/ranking.py:296-388 | no candidate is refused if and only if each scored one has a finite score and a finite positive measured latency, and no other one has a score |
| RankOrder.FaultsNamed | hubcore/ranking.py:296-388 | which fault a candidate is refused for |
| RankOrder.ComplaintsNamed | hubcore/ranking.py:342-352 | which request is refused: another order or tie-break, or an N below one |
| RankOrder.IdentitySpelled | hubcore/ranking.py:200-202 | the identity text: protocol, dialled host, port and every other part of the configuration, in this order |
| RankOrder.ContentSpelled | hubcore/ranking.py:205-207 | the content text: every field of the node by name, in declaration order |
| RankOrder.TextLeExactly | hubcore/ranking.py:391-392 | texts compare by the first character in which they differ |
| Ranking.ShuffleInvariant | hubcore/ranking.py:334-392 | any permutation of the candidates gives the same sequences of ranked and unranked keys, and is refused or not alike |
| Ranking.OrderIndependentExactly | hubcore/ranking.py:337-338 | the ranked list is a function of the multiset if and only if the four levels separate different scored candidates |
| Ranking.PlainNodesRankOnce | hubcore/ranking.py:337-338 | it is for scored nodes whose strings avoid the structural characters and whose numbers can be written down |
| Ranking.OrderDependsOnInput | hubcore/ranking.py:337-338 | a family of candidate pairs that come out in the order they came in |
| Ranking.ScoredIsAdmitted | hubcore/ranking.py:296-331 | no outcome of the scorer raises an integrity error |
| Ranking.Dominance | hubcore/ranking.py:367-375 | at equal bonuses the strictly faster node with no greater jitter is always ranked earlier, also when rounding ties the scores |
| Ranking.NoFabricatedRank | hubcore/ranking.py:296-388 | along measure, score and rank nothing is refused, and each ranked node was earned by two genuine cycles of one input node |
| Encoding.Utf8RoundTrip | hubcore/output.py:512-518 | decoding the UTF-8 of any text gives the text |
| Encoding.Base64RoundTrip | hubcore/output.py:512-518 | strict decoding of the base64 of any bytes gives the bytes |
| Encoding.Base64OneLine | hubcore/output.py:512-518 | base64 text consists of alphabet letters and padding only |
| Encoding.Base64Vectors | hubcore/output.py:512-518 | encodings of section 10 of RFC 4648 |
| Encoding.FlexibleRefuses | hubcore/parsing/_utils.py:55-88 | what the tolerant decoder decodes is within its cap and, under white space and padding, letters of one alphabet or the other |
| Encoding.Utf8Spelled | hubcore/output.py:512-518 | the bytes of a character by its range, as in section 3 of RFC 3629 |
| Encoding.FlexibleRecovers | hubcore/parsing/_utils.py:55-88 | nonempty bytes are recovered from a standard, url-safe, unpadded or whitespace-broken encoding within the cap |
| Encoding.QuoteRoundTrip | hubcore/output.py:477 | percent-decoding undoes percent-encoding on bytes |
| Encoding.QuoteByteSpelled | hubcore/output.py:477 | a byte is quoted as itself if it is a letter, a digit or one of `_.-~/`, and else as `%` and two upper-case digits |
| Encoding.FragmentDecodes | hubcore/output.py:477 | the fragment of a rendered link decodes to exactly the brand name |
| Parsing.ParseQuery | hubcore/parsing/_utils.py:105-124 | the dictionary loop gives the specified dictionary |
| Queries.SingleValue | hubcore/parsing/_utils.py:105-124 | for a name given once, first and last value agree |
| Queries.QueryExactly | hubcore/parsing/_utils.py:105-124 | for every list of pairs: a key that is a name maps to its last value; any other key is there exactly when it marks a name that a pair found taken, and maps to what that name had the first time |
| Queries.QueryMeaning | hubcore/parsing/_utils.py:105-124 | so, when no name is another one followed by `[]`, each name maps to its last value, and `name[]` exists exactly when the name is repeated and maps to its first |
| Queries.QueryPermutes | hubcore/parsing/_utils.py:105-124 | permuting distinctly named parameters leaves the dictionary as it is |
| Queries.ReorderKeepsIdentity | hubcore/parsing/parsers.py:140-150 | links that differ by such a permutation are refused alike or parse to the same node except for the raw text |
| Queries.ItemsDetermine | hubcore/model.py:134-155 | the sorted `protocol_fields` determine the dictionary they came from |
| LinkReads.VlessLinkReads | hubcore/parsing/parsers.py:221-262 | a composed vless link is read back: decoded user as `uuid`, no password, no secret, host and port as dialled (443 by default), each parameter in its own field, REALITY parameters, unknown parameters and an unknown transport word as the only protocol fields; or it is refused, exactly for a password, a missing, delimited or overlong uuid |
| LinkReads.TrojanLinkReads | hubcore/parsing/parsers.py:424-454 | the same for trojan, with user info as the password |
| LinkReads.Hysteria2LinkReads | hubcore/parsing/parsers.py:456-489 | the same for hysteria2, with its obfuscation fields |
| LinkReads.SocksLinkReads | hubcore/parsing/parsers.py:491-517 | the same for socks: user in `secret`, password in `password` where there is a user, port 1080 by default |
| LinkReads.SsLinkReads | hubcore/parsing/parsers.py:382-421 | the same for SIP002 shadowsocks, however its method and password are encoded |
| LinkReads.SsRefused | hubcore/parsing/parsers.py:382-408 | a SIP002 link is refused when its user info names no method and password in any of these encodings, and when its address cannot be dialled |
| LinkReads.LegacyLinkReads | hubcore/parsing/parsers.py:351-380 | the same for the old form in base64 |
| LinkReads.LegacyRefused | hubcore/parsing/parsers.py:351-366 | the old form is refused when its payload is no base64 or names no method and password |
| LinkReads.VmessLinkReads | hubcore/parsing/parsers.py:533-575 | a vmess link is what its body reads as, with the stripped link as `raw_url` and no observation, named by its fragment only where the body names nothing; otherwise it is malformed |
| LinkReads.UndialableRefused | hubcore/parsing/parsers.py:56-94 | a link with too long a host, or a port that is no number from 1 to 65535, is malformed |
| LinkCuts.MuddledExactly | hubcore/parsing/parsers.py:56-94 | no host is read from a location that is empty, has an open bracket or text behind a closed one, or two bare colons |
| LinkReads.RefusedUnread | hubcore/parsing/parsers.py:533-551 | blank input, overlong input, no scheme and an unsupported scheme are refused, each with its error |
| LinkReads.ParametersRead | hubcore/parsing/_utils.py:105-124 | each decoded value of distinctly named parameters is found under its decoded name, stripped and in lower case, and nothing else is found |
| LinkReads.NameRead | hubcore/parsing/parsers.py:153-158 | the display name of a link is its decoded fragment, normalised and cut at 512 characters |
| Model.IdentityExactly | hubcore/identity.py:30-62 | two nodes are one configuration exactly when seventeen things agree, the pinned address standing for the host |
| Model.EndpointsExactly | hubcore/model.py:37-62 | an endpoint exists exactly for a host that is not blank and a port from 1 to 65535; what its host becomes |
| Queries.LegacyRenameExactly | hubcore/parsing/parsers.py:351-379 | a legacy shadowsocks link keeps its identity under a new name if and only if its old name is present and decodes to the same text |
| Renaming.SplitIgnoresFragment | hubcore/parsing/parsers.py:115-137 | splitting a URL sees a new fragment only as the fragment |
| Renaming.SplitTakesQuery | hubcore/parsing/parsers.py:115-137 | and a query only as the query |
| Renaming.ParserFaithful | hubcore/parsing/parsers.py:161-166 | a parsed node records the stripped line it came from |
| Renaming.RenameKeepsIdentity | hubcore/parsing/parsers.py:533-558 | under a new fragment every vless, trojan, hysteria2, socks and SIP002 ss link parses to the same node except for raw text and display name, hence to the same `config_key` |
| Output.LinkIsLineExactly | hubcore/output.py:426-477 | a rendered link is nonempty and is one line, except for a vmess fallback whose raw text is not |
| BundleContents.BrandSpelled | hubcore/output.py:400-420 | the name of a link: channel, flag, country, city, latency and architecture, in this order, each as it is displayed or what stands for it |
| BundleContents.LinkSpelled | hubcore/output.py:426-477 | a link is its text before the fragment with the quoted name behind `#`; vmess carries the name inside; empty and controlled texts are refused |
| BundleContents.DisplayedExactly | hubcore/output.py:361-395 | the displayed latency is that of the first source that has one |
| Publishing.FallbackReachable | hubcore/output.py:473-475 | that exception is reachable through the parser: a vmess link that parses but cannot be renamed parses under a two-line name as well, and is rendered as two lines |
| Output.RenderedFramed | hubcore/output.py:491-497 | without such a fallback all rendered links are framed |
| Output.FileRoundTrip | hubcore/output.py:491-503 | splitting the text file recovers exactly the list of links |
| Output.PayloadRoundTrip | hubcore/output.py:506-518 | under every accepted policy, decoding the base64 artifact gives its payload, which splits into exactly the links and equals the text file up to CRLF for LF and one last line break |
| Groups.GroupBy | hubcore/output.py:524-541 | each group is the order-preserving filter of the entries by its key, groups come in order of first appearance, and no key is missing |
| Groups.PingTiers | hubcore/output.py:598-614 | each tier is the filter of the entries with a displayed latency within its threshold |
| Groups.UltraWithinGood | hubcore/output.py:598-614 | with a lower threshold the ultra-fast tier is an order-preserving part of the good tier |
| Groups.ProtocolsPartition | hubcore/output.py:524-530 | the protocol groups partition the entries |
| Groups.RenderGroups | hubcore/output.py:559-595 | every group file is the rendering of its filter |
| Groups.BuildOutputs | hubcore/output.py:657-713 | refused exactly when the policy is, or else some link; otherwise every file of the bundle is a rendered filter of the entries, and the candidates without a rank are counted by status |
| BundleContents.BundleSpelled | hubcore/output.py:657-713 | a bundle in terms of its entries: the list of links and its base64 payload, a file for each protocol, transport and country that occurs with exactly its entries in order, and the two tiers, each at its path |
| BundleContents.PolicyExactly | hubcore/output.py:279-303 | which output policies are accepted |
| Groups.CountsAreLines | hubcore/output.py:683-696 | each reported count is the number of lines of its file, and each line is the link of its entry |
| Groups.BundleLines | hubcore/output.py:683-696 | so are all counts of a bundle, the total included |
| Groups.TallyStatuses | hubcore/output.py:679-695 | the tally holds exactly the statuses that occur, each with its number |
| Groups.StatusesAddUp | hubcore/output.py:679-695 | these numbers add up to the candidates without a rank |
| Publishing.RenderKeepsIdentity | hubcore/output.py:426-477 | printer and parser agree: whatever geography, latency and policy, a rendered link of these protocols parses to the same `config_key` |
| Publishing.LegacyRenderExactly | hubcore/output.py:426-477 | for a legacy shadowsocks link this holds exactly when its old name reads as the new one |
| Publishing.PrintableExactly | hubcore/output.py:426-436 | an accepted link always has a text before its fragment, and is refused for printing if and only if that text has a control character |
| Publishing.TabbedLinkRefused | hubcore/output.py:426-436 | one tab or line break behind the `?` of an accepted link changes nothing for the parser but the raw text, and no entry with that raw text can be rendered |
| Publishing.CountryNameSafe | hubcore/output.py:544-556 | either naming scheme gives a nonempty file stem without separators, dots, colons or NUL, within the length a path allows |
| Publishing.DirectoryPlannable | hubcore/writer.py:272-301 | the files of one output directory are planned exactly when their names are publishable |
| Publishing.BundlePlannableExactly | hubcore/writer.py:258-301 | a whole bundle is refused only for its countries: one filed under a device name, or two under names that differ only in case |
| Publishing.PublishBundle | hubcore/writer.py:494-515 | nothing is touched unless the bundle plans, a failing operation leaves exactly the artifacts before it published, and on success each artifact reads back as its exact text |
| Publishing.ArtifactsAre | hubcore/writer.py:258-269 | the artifacts of a bundle: the list, its base64, every file of every group and the two tiers, each with its own text, kind and path |
| Publishing.InstalledSpelled | hubcore/writer.py:494-515 | after publication every file of the bundle holds the UTF-8 encoding of its own text |

## Left out

- Floating point: finite values are reals with the range of binary64, both infinities and NaN; representation error of the basic operations and the sign of zero are not modelled. Where printing matters, numbers are quotients of integers, which all binary64 numbers are.
- Sockets, TLS, DNS calls, downloads, clocks: each is an arbitrary answer to the modelled step. `fetch.py`, `tcpval.py`, `geo.py` and the special-range tables of `classify_ip` appear only as such answers, given per wrapper.
- File-system detail: symbolic links, creation of directories and the mapping of error numbers to reasons are "may fail"; names of temporary files are assumed different from all artifact names; reading a target to compare it is one step.
- Interruption of one thread between two instructions (a signal handler that raises) is not modelled; the death of a whole process is.
- Strings are sequences of Unicode scalar values. A Python string can also hold a lone surrogate; such a raw text passes the control-character check and then makes the UTF-8 encoding of the base64 payload raise, which the condition of `Pipeline.RunPipeline` does not cover.
- Checks of Python types: configurations are typed here, so only their values are refused.
- Writer.Volume.WriteOutputs: sequential; concurrent calls are the subject of `WriterSafety` only.
- WriterSafety.LastHolderDecides: for targets written by one process, since the lock is a thread lock; `WriterSafety.LastReplaceDecides` covers all processes.
- vmess: its JSON body is parsed and printed by abstract functions, so nothing is stated about the fields of a vmess node or the identity of a renamed vmess link.
- LinkReads.VlessLinkReads: for links whose user, host, port and query texts hold no delimiter of the other parts (the user info may be missing and may hold slashes); so are the other theorems about composed links.
- NodeText.ContentSeparates: gives a sufficient condition on the strings and numbers; the exact condition for order independence is `Ranking.OrderIndependentExactly`.
- Queries.QueryMeaning: a reading of `Queries.QueryExactly` for names none of which is another one followed by `[]`.
- Renaming.RenameKeepsIdentity: for results within the parser's length cap, as longer links are refused.
- NameResolution.OrderIsExpiry: for puts that follow a miss under a monotone clock, as the resolver issues them.
- Parse errors keep three kinds, without their texts; trimming of the scorer's details to a fixed length is omitted.
- Records that only echo other data: the ok reports of the scoring stage, and the details of source and stage records.
- `protocol_fields` is sorted and stripped once at the end of a parser and not again at each `replace`.
- `enums.py`, `latency.py`, `collector/` and the sample scripts, beyond the tables and kinds the modelled code uses.
