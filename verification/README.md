# A verified model of SigNoz's stateful algorithms

This project models, in Dafny, the parts of SigNoz whose correctness hangs on state that is kept, merged or rewritten
over many calls, and proves what those parts promise. `dafny verify dfyconfig.toml` checks everything.

| files | what they model |
|---|---|
| `AlertSpec`, `AnomalyRule`, `AlertTheorems` | one evaluation of an anomaly rule, and what its stored alerts and history records mean over any run of evaluations |
| `SpanGraph`, `SpanForest`, `SpanToTree`, `SpanTreeMetadata`, `TraceArena`, `TraceDescent`, `TraceChains`, `TraceForest` | a span list linked into trees, and the traversal that sums those trees up |
| `ConfigIds`, `AgentConf`, `AgentConfTheorems` | versioned agent configs, the ids handed out with recommendations, and late deployment reports |
| `SortSlice`, `SeriesCache`, `MissingRanges`, `QueryCache`, `CachedQuery`, `EarlyCaching`, `Buckets`, `BucketedQuery`, `CutCounts`, `BucketBounds`, `MetricBuckets`, `CutRanges`, `CutQueries`, `CutExample` | a range query answered partly from cached chunks and partly from the database, over data that still arrives and is counted per step |
| `TimeRange`, `LcmList` | query windows, step intervals and their least common multiple |
| `ContextLinks` | the filter rewrite behind an alert's links to logs and traces |
| `Registry`, `RegistryRuns` | stopping all services concurrently and joining their errors |
| `ResponseCapture` | keeping the start of error responses for the log |
| `Temporality` | the cache of metric temporalities |
| `Wrappers`, `QueryModel` | shared helpers, and the parts of a builder query used by several components |

Objects that the source updates in place are classes (`AnomalyRule`, `Alert`, `TreeBuilder`, `TreeNode`, `Traversal`,
`Manager`, `Series`, `Cache`, `QueryRangeParams`, `LoggingWriter`, `APIHandler`, `BuilderQuery`). Go maps and JavaScript
objects are visited in an arbitrary order. Results of the database, the clock, new ids and calls that may fail are
parameters. Concurrency appears as a step system (`Registry`).

The main results:

- **Alerts.** The rule object carries the sequence of its successful evaluations as ghost state, and its invariant says
  that map and records are the fold of a per-fingerprint step over that sequence. `AlertTheorems` then describes that
  fold without mentioning steps: presence runs, the hold duration, the retention of resolved alerts, how many records of
  each kind there are, and the overall state of the rule and on every record.
- **Traces.** For any number of parent references the recursion over the returned trees ends exactly when no returned
  parentless node has a cycle of parents below it, and then nests at most as many calls as there are nodes; it meets a
  node as often as chains of references lead up from it. For spans with at most one parent reference it always ends, and
  the traversal's accumulators sum up the trace (the spans whose parent chain ends plus the missing parents, each once)
  exactly when the spans name one trace or every parentless node is a root. Spans on or below a cycle are what is left
  out, and nothing else.
- **Agent configs.** In every reachable state versions of a type are exactly 1..n, every column of a row follows from
  the event log, and the hash of a row is its own id or unset, so a report on a handed-out id reaches exactly the rows
  used for it, as long as no type has a comma; `ReachesExactlyIff` says what else it takes then.
- **Cached queries that count per step.** On any cache the querier leaves, and for rows that do not change, the answer
  equals the direct one whatever the rows are exactly if no range fetched so far, or asked for now, cuts a bucket of the
  query (`NeverShowsIff`). For logs, whose filter includes the end, every range ever fetched that has any of the query's
  buckets must then end with the query (`LogsNeverShowIff`). Metrics move their bounds to steps or minutes before they
  read: `MetricsNeverShowIff` is the condition for any step, and for steps up to a minute and queries without extra
  steps, where merged chunks stay direct (`MergedMetricsStayDirect`), only the last bucket or a start between two steps
  can go wrong (`MinuteMetricsNeverShowIff`). The ranges fetched so far are ghost state of the cache, since merging
  hides where they met: in `CutBucket` two queries answer 1 where the table counts 2, the second of them from one cached
  interval that is the query's own.
- **Cached queries over data that still arrives.** A query is answered from the cached chunks and the ranges asked for,
  and over any run of queries answer and cache are the database's final ones, per label set and with none missing, at
  every time but a set that grows in two ways only: by times that were asked for past the flux horizon, and by buckets
  that a range asked for, or the horizon, cuts (`RunBuilderQuery`, with `FinalBeforeHorizon` and `RowsAreFinalBefore`
  for the database). Neither can be spared: what one query caches is final at given times, for every database that was
  final before the horizon, exactly if none of them was asked for past it (`FinalIffNotEarly`), and such a time is not
  asked for again, so that a stale point is answered later (`StaleAnswer`). Two more promises of the gap search do not
  hold in general: the missing ranges overlap exactly when cutting the last cached interval at the horizon inverts it
  inside the query (`GapsOverlapIff`), and data newer than the flux interval is fetched again exactly when no cached
  interval but the last reaches into it (`PastHorizonIsFetchedIff`).

## Model

| member | source | states |
|---|---|---|
| AnomalyRules.Alert.constructor | ee/query-service/rules/anomaly.go:281-291 | A new alert is pending, active since the evaluation's time, with the sample's value and labels, never fired and never resolved |
| AnomalyRules.AnomalyRule.State | pkg/query-service/rules/base_rule.go:291-299 | NoData if some stored alert has it, else firing if some alert fires, else pending if some is pending, else inactive |
| AnomalyRules.AnomalyRule.BuildAlerts | ee/query-service/rules/anomaly.go:215-292 | A vector with two samples of one label hash is a duplicate; any other gives one fresh pending alert per sample under its hash; the stored map is not touched |
| AnomalyRules.AnomalyRule.AddOrUpdate | ee/query-service/rules/anomaly.go:297-309 | A live alert keeps its start and state and takes value and annotations; an inactive or missing one is replaced by the new pending alert; no other alert changes |
| AnomalyRules.AnomalyRule.AddOrUpdateAll | ee/query-service/rules/anomaly.go:297-309 | In whatever order the new alerts are visited, every fingerprint ends as its own sample says |
| AnomalyRules.AnomalyRule.SweepAbsent | ee/query-service/rules/anomaly.go:319-340 | A fingerprint that did not return: a pending alert or one resolved longer ago than the retention leaves the map, a live one becomes inactive, and a record is written exactly for a live one |
| AnomalyRules.AnomalyRule.SweepOne | ee/query-service/rules/anomaly.go:314-360 | One visit of the second loop changes its own fingerprint only and writes at most one record |
| AnomalyRules.AnomalyRule.SweepAll | ee/query-service/rules/anomaly.go:311-360 | In any order of visits every stored alert is resolved, dropped or fired as its own state, presence and times say, with the matching records per fingerprint |
| AnomalyRules.StampOverall | ee/query-service/rules/anomaly.go:362-369 | Every record gets the overall state after the evaluation and whether it changed; nothing else in the records changes |
| AnomalyRules.AnomalyRule.Eval | ee/query-service/rules/anomaly.go:201-374 | A failed query or a duplicate leaves the map, its alerts and the records as they were; a successful evaluation extends the history by exactly this evaluation, keeps map and records equal to the fold over the whole history, reports the number of stored alerts, and stamps every record |
| AlertTheorems.AlertInRun | ee/query-service/rules/anomaly.go:296-360 | While a fingerprint is present its alert depends on the current unbroken presence run only: a reappearing alert starts anew and serves the full hold again |
| AlertTheorems.AlertAfterRun | ee/query-service/rules/anomaly.go:319-340 | After a run the alert is stored, inactive and resolved at the first evaluation without it, exactly if the run had fired and the retention is not over |
| AlertTheorems.NoAlertWithoutRun | ee/query-service/rules/anomaly.go:296-360 | A fingerprint that was never present has no alert |
| AlertTheorems.StateWhilePresent | ee/query-service/rules/anomaly.go:342-360 | With times that do not go back: firing iff present for an unbroken stretch of at least the hold duration, pending iff for a shorter one |
| AlertTheorems.StateWhileAbsent | ee/query-service/rules/anomaly.go:319-340 | With times that do not go back: stored as inactive iff the last run lasted the hold duration and the time since the first evaluation without it is at most the retention; it is resolved at that evaluation's time |
| AlertTheorems.FiringIsNeverDropped | ee/query-service/rules/anomaly.go:319-340 | No evaluation removes a firing alert or makes it pending |
| AlertTheorems.FiringRecordStartsHold | ee/query-service/rules/anomaly.go:342-359 | A firing or no-data record is written exactly at the evaluation at which a run first reaches the hold, with the first sample's labels and kind and the newest value |
| AlertTheorems.InactiveRecordOfRun | ee/query-service/rules/anomaly.go:325-338 | The record of an ended run carries its first sample's labels and its last sample's value |
| AlertTheorems.RecordsCountRuns | ee/query-service/rules/anomaly.go:311-360 | Per fingerprint, inactive records count the ended runs, firing and no-data records together count the runs that lasted the hold duration, and there are no others |
| AlertTheorems.NoFiringTwice | ee/query-service/rules/anomaly.go:311-360 | Between two firing or no-data records of a fingerprint there is an inactive one |
| AlertTheorems.RuleMeetsHistory | ee/query-service/rules/anomaly.go:275-360 | On the rule object after any run of successful and failed evaluations: when each state is stored, the resolution time of an inactive alert, both record counts, and never two firing records without an inactive one between them |
| AlertTheorems.RuleStateMeetsHistory | pkg/query-service/rules/base_rule.go:291-299 | On the rule object after any run: the overall state is firing iff some fingerprint has been present for the hold duration, pending iff some is present and none that long, and inactive iff none is present |
| AlertTheorems.RecordsMeetHistory | ee/query-service/rules/anomaly.go:362-369 | Every record of every evaluation carries that state as of its evaluation, and as changed iff it differs from the one before |
| AlertTheorems.FiredWhenHeld | ee/query-service/rules/anomaly.go:342-344 | A firing alert carries the time of the evaluation at which its run first reached the hold duration |
| SpanToTree.TreeBuilder.constructor | frontend/src/utils/spanToTree.ts:82-104 | One unlinked node per span id, the last span of an id winning |
| SpanToTree.TreeBuilder.AddMissing | frontend/src/utils/spanToTree.ts:57-80 | Exactly the missing non-empty ids among the references get a placeholder; existing nodes stay; the trace ids of the references are remembered |
| SpanToTree.TreeBuilder.Adopt | frontend/src/utils/spanToTree.ts:109-114 | One reference puts the node below the node it names, if there is one, and marks it |
| SpanToTree.TreeBuilder.LinkAll | frontend/src/utils/spanToTree.ts:106-116 | In any order of spans: every node's children are the spans that refer to it, once per reference, and a node is marked iff one of its references names an existing node |
| SpanToTree.TreeBuilder.Prune | frontend/src/utils/spanToTree.ts:117-121 | Exactly the marked nodes leave the map |
| SpanToTree.TreeBuilder.Place | frontend/src/utils/spanToTree.ts:127-141 | A root goes into the span tree once; any other node goes once per trace id, into the span tree if the trace id contains its id and else among the missing |
| SpanToTree.TreeBuilder.Partition | frontend/src/utils/spanToTree.ts:123-142 | Every remaining node appears as often as that says, and nothing else appears |
| SpanToTree.SpanToTreeUtil | frontend/src/utils/spanToTree.ts:52-148 | The returned trees start at exactly the nodes without a parent, in those numbers; all nodes are linked as above |
| TraceChains.ListsAre | frontend/src/utils/spanToTree.ts:123-142 | On the span list: a parentless span that names the empty id is in the span tree once and not among the missing; any other parentless node is in the span tree once for every named trace whose id contains its own, and among the missing once for every other one; no other node starts a tree |
| SpanToTree.LastSpansAreLast | frontend/src/utils/spanToTree.ts:82-104 | Of several spans with one id it is the last in the list that is kept |
| TraceArena.LinkedBelow | frontend/src/utils/spanToTree.ts:106-116 | On any input every reference to a non-empty id puts the span below the node of that id |
| TraceForest.ArenaIsForest | frontend/src/utils/spanToTree.ts:106-116 | With at most one reference per span the children lists are exactly the inverse of the parent links, without repetition |
| TraceDescent.ArenaKids | frontend/src/utils/spanToTree.ts:106-116 | On any input the child lists hold exactly the edges of the span list: a reference to a non-empty or existing id |
| TraceDescent.ReturnedAreReturnedTops | frontend/src/utils/spanToTree.ts:117-142 | The returned trees start at exactly the parentless nodes that are roots, or at all of them if some span names a trace |
| TraceDescent.ReturnedOnceIff | frontend/src/utils/spanToTree.ts:126-142 | Every parentless node starts exactly one returned tree iff the spans name exactly one trace or every parentless node is a root |
| TraceForest.ReturnedAreTops | frontend/src/utils/spanToTree.ts:117-142 | With at most one reference per span, and under that condition, the returned trees start at every node without a parent, once each |
| TraceDescent.ChainsBoundedIff | frontend/src/utils/spanToTree.ts:106-142 | For any number of references: chains of edges below the returned parentless nodes are bounded, then by the number of nodes, iff none of them leads to a cycle of parents |
| TraceDescent.TraversalEndsIff | frontend/src/utils/getSpanTreeMetadata.ts:17-41 | The recursion over the returned trees ends, nesting at most as many calls as there are nodes, iff no returned parentless node has a cycle of parents below it |
| TraceDescent.WalkReaches | frontend/src/utils/getSpanTreeMetadata.ts:17-41 | Where it ends it meets a node at a level iff a chain of that length leads down to it from a returned parentless node |
| TraceChains.WalkVisitsChains | frontend/src/utils/getSpanTreeMetadata.ts:17-41 | And it meets it there as often as there are such chains, each reference and each returned tree counted |
| TraceDescent.TwoParentsCanLoop | frontend/src/utils/spanToTree.ts:106-142 | Three spans, one with two parents, have a cycle below a returned root |
| TraceDescent.LoopingSpansNeverEnd | frontend/src/utils/getSpanTreeMetadata.ts:17-41 | On them the recursion over the returned trees ends in no number of calls |
| SpanGraph.EndsUnlessLoop | frontend/src/utils/getSpanTreeMetadata.ts:17-35 | A recursion over child lists ends iff it cannot reach a loop, and then within as many nested calls as there are nodes |
| SpanGraph.WalkVisits | frontend/src/utils/getSpanTreeMetadata.ts:17-35 | The walk from a node meets exactly the nodes below it, at each of their distances |
| SpanForest.WalkIsInjective | frontend/src/utils/getSpanTreeMetadata.ts:17-35 | In a forest it meets none of them twice |
| SpanForest.ForestWalkVisits | frontend/src/utils/getSpanTreeMetadata.ts:36-41 | Walking from every parentless node of a forest meets exactly the nodes whose parent chain ends, each at its depth |
| SpanForest.GroundedUnlessCyclic | frontend/src/utils/spanToTree.ts:106-121 | A parent chain ends, before it is as long as there are nodes, iff the node is neither on nor below a cycle |
| SpanTreeMetadata.Traversal.Enter | frontend/src/utils/getSpanTreeMetadata.ts:21-31 | One visit: count, level, extrema of the times unless it is a placeholder; an error shows in the error colour, anything else in the colour of its service, if that has one |
| SpanTreeMetadata.Traversal.Traverse | frontend/src/utils/getSpanTreeMetadata.ts:17-35 | Wherever the recursion ends it leaves the accumulators folded over the walk from the node, and exactly the nodes met are coloured |
| TraceArena.FoldIsSummary | frontend/src/utils/getSpanTreeMetadata.ts:12-28 | The folded accumulators are the number of visits, the greatest level or 1, the least start and the greatest end |
| TraceForest.WalkVisitsGrounded | frontend/src/utils/spanToTree.ts:103-142 | With at most one reference per span, the walk from every parentless node meets exactly the spans whose parent chain ends and one placeholder per missing id, each once |
| TraceArena.GetSpanTreeMetadata | frontend/src/utils/getSpanTreeMetadata.ts:36-50 | Both lists are traversed one after the other from level 1, folding one walk; spread is the difference of the extrema |
| TraceForest.SingleParentHasNoCycleBelowTop | frontend/src/utils/spanToTree.ts:106-142 | With at most one reference per span the recursion always ends |
| TraceForest.SumsUpIff | frontend/src/utils/getSpanTreeMetadata.ts:8-51 | With at most one reference per span, the numbers sum up the trace iff every parentless node is returned exactly once, a condition on the spans |
| TraceForest.SummarizeTrace | frontend/src/utils/getSpanTreeMetadata.ts:8-51 | For any span list on which the recursion ends, a node is met at a level once for every chain of that many references up from it to the start of a returned tree, and the numbers are those of these visits; with at most one reference per span, and iff every parentless node is returned once, totalSpans is the number of grounded spans plus missing ids, levels the longest ancestor chain (at least 1), and globalStart and globalEnd the least start and greatest end over the grounded spans |
| TraceForest.LeftOutMeansCyclic | frontend/src/utils/spanToTree.ts:106-121 | A span is summed up iff it lies neither on nor below a cycle of parents |
| ConfigIds.ConfigIdInjective | pkg/query-service/agentConf/manager.go:133 | Two (type, version) pairs print to one id only if they are equal, for any types and any integers |
| ConfigIds.ConfigIdReads | pkg/query-service/agentConf/manager.go:133 | An id is the type, a colon and the version in decimal, without leading zeros and with a minus if negative |
| ConfigIds.SplitJoin | pkg/query-service/agentConf/manager.go:150-168 | Splitting at commas undoes joining iff there is a part and no part contains a comma |
| ConfigIds.SplitOfJoin | pkg/query-service/agentConf/manager.go:150-168 | What splitting a joined id gives are the parts of its parts |
| ConfigIds.PartSurvives | pkg/query-service/agentConf/manager.go:150-168 | A part without commas comes out whole, whatever the other parts are |
| ConfigIds.ConfigIdHasNoComma | pkg/query-service/agentConf/manager.go:133 | An id contains a comma iff the type does |
| AgentConf.Manager.GetLatestVersion | pkg/query-service/agentConf/db.go:103-135 | The row of the highest version of the type, or none if the type has no row |
| AgentConf.Manager.InsertConfig | pkg/query-service/agentConf/db.go:137-236 | Under a fresh id it succeeds iff the input is acceptable, elements do not repeat and no statement fails; then the version is one above the highest and both tables gain exactly its rows; otherwise nothing of it stays |
| AgentConf.Manager.UpdateDeployStatus | pkg/query-service/agentConf/db.go:238-261 | Exactly the row of the type and version takes status, result, hash and config |
| AgentConf.Manager.UpdateDeployStatusByHash | pkg/query-service/agentConf/db.go:263-279 | Exactly the rows of that hash take status and result |
| AgentConf.Initiate | pkg/query-service/agentConf/manager.go:50-75 | A manager exists iff no two features share a type, the panic of the source otherwise |
| AgentConf.Manager.StartNewVersion | pkg/query-service/agentConf/manager.go:200-217 | The invariant of the tables is kept; a failure leaves both tables as they were; success adds one version |
| AgentConf.Manager.RecommendAgentConfig | pkg/query-service/agentConf/manager.go:98-160 | The config goes through the features in order, each with its latest version; exactly the rows of the versions used are marked, with status, result, their own id as hash and the settings used as config, also when a later feature fails; the id joins the used ids, or is a hash when there are no features |
| AgentConf.Manager.ReportConfigDeploymentStatus | pkg/query-service/agentConf/manager.go:163-180 | Exactly the rows whose hash is a part of the id take the outcome |
| AgentConf.InsertKeepsState | pkg/query-service/agentConf/db.go:137-236 | An insert keeps: versions of every type are 1..n, elements belong to versions, statuses and hashes follow from the log |
| AgentConf.MarkKeepsState | pkg/query-service/agentConf/manager.go:137-145 | So does marking the latest version as recommended |
| AgentConf.ReportKeepsState | pkg/query-service/agentConf/manager.go:168-179 | So does a report on any id at any time |
| AgentConfTheorems.ReportReachesUsedRows | pkg/query-service/agentConf/manager.go:107-180 | A report on the id of a recommendation, in any later state, reaches exactly the rows used in it, for types without commas |
| AgentConfTheorems.RecommendedStaysMarked | pkg/query-service/agentConf/manager.go:137-145 | What a recommendation used counts as recommended in every later state, as the row above needs |
| AgentConfTheorems.CommaLosesReport | pkg/query-service/agentConf/manager.go:168-179 | A row whose type contains a comma is reached by no report, whatever its id |
| AgentConfTheorems.ReachesExactlyIff | pkg/query-service/agentConf/manager.go:107-180 | Whatever versions were used, a report reaches exactly their rows iff none of these rows has a comma in its type and no used id with a comma has, among its parts, the id of another version that was recommended some time |
| AgentConfTheorems.CommaHitsOther | pkg/query-service/agentConf/manager.go:107-180 | A type with a comma that has no version yet can make a report reach a row that was not used |
| AgentConfTheorems.LateReportSparesNewer | pkg/query-service/agentConf/manager.go:163-180 | A late report leaves every row of a newer version as it is |
| AgentConfTheorems.LastEventDecides | pkg/query-service/agentConf/manager.go:98-180 | The status a log gives is DIRTY iff the version was never recommended, and otherwise the outcome of the last event about it |
| AgentConfTheorems.RowContents | pkg/query-service/agentConf/manager.go:98-180 | In every reachable state a row that was never recommended is as it was inserted; any other has the status and the text of the last event that concerns it, its own id as hash, and the settings of the last recommendation that used it as config |
| AgentConfTheorems.SupersededIsNotRecommended | pkg/query-service/agentConf/manager.go:107-147 | After a newer version was inserted an older one is never marked by a recommendation again |
| AgentConfTheorems.VersionsAreDense | pkg/query-service/agentConf/db.go:161-173 | In every reachable state the versions of a type are exactly 1..n, each in one row, and the one used next is n |
| SeriesCache.KeepLastOfSorted | pkg/query-service/model/v3/v3.go:1183-1210 | Deduplicating sorted points gives strictly increasing times, the same times as before and no new point |
| SeriesCache.KeepLastKeepsLast | pkg/query-service/model/v3/v3.go:1183-1210 | It is the last point of every run of equal times that is kept |
| SeriesCache.Series.SortPoints | pkg/query-service/model/v3/v3.go:1177-1181 | A permutation sorted by time |
| SeriesCache.Series.RemoveDuplicatePoints | pkg/query-service/model/v3/v3.go:1183-1210 | The loop from the back and the reversal keep the last point of every run of equal times, in the old order |
| SeriesCache.GetSeriesFromCachedData | pkg/query-service/common/query_range.go:95-125 | One series per label set of the chunks; each strictly increasing, made of points in [start, end] of its chunks, with a point for every time at which they have one |
| SeriesCache.ReassemblesWhole | pkg/query-service/common/query_range.go:95-125 | However one series per label set was cut into chunks, overlapping and in any order, it comes back as exactly its points in [start, end] |
| SeriesCache.Reassembles | pkg/query-service/common/query_range.go:95-125 | The same on any part of the range that the chunks cover |
| MissingRanges.MissingBetween | pkg/query-service/querycache/query_range_cache.go:88-113 | The loop computes the gap function the following rows are about |
| MissingRanges.MissingIsComplement | pkg/query-service/querycache/query_range_cache.go:88-113 | A time is in a missing range iff it is in the query and in no cached interval, also with overlapping or inverted intervals |
| MissingRanges.MissingInOrder | pkg/query-service/querycache/query_range_cache.go:88-113 | Without inverted intervals the missing ranges are non-empty, in order and do not overlap |
| MissingRanges.OverlapsIff | pkg/query-service/querycache/query_range_cache.go:79-113 | After cutting the last interval they overlap iff the cut inverted it strictly inside the query |
| MissingRanges.GapsOverlapIff | pkg/query-service/querycache/query_range_cache.go:79-113 | In terms of the cached intervals: they overlap iff the flux horizon lies inside the query and before the start of the last one, itself inside the query |
| MissingRanges.GapsOverlapExample | pkg/query-service/querycache/query_range_cache.go:79-113 | The last three minutes cached and a flux interval of five: the two ranges found missing in the last hour overlap |
| MissingRanges.PastHorizonIsFetchedIff | pkg/query-service/querycache/query_range_cache.go:64-113 | All of the query past the flux horizon is missing iff no cached interval but the last reaches into it |
| MissingRanges.NotFetchedAgainExample | pkg/query-service/querycache/query_range_cache.go:64-113 | Two cached intervals inside the flux interval: part of it is not fetched again |
| MissingRanges.SettledIsNotFetchedAgain | pkg/query-service/querycache/query_range_cache.go:79-108 | What is cached and before the horizon is never missing, also if it was past the horizon when it was fetched |
| QueryCache.MergeSeries | pkg/query-service/querycache/query_range_cache.go:127-153 | One strictly sorted series per label set of either side, nothing invented and no time lost; on the cached side a later series of the same labels replaces an earlier one |
| QueryCache.LatestIsLast | pkg/query-service/querycache/query_range_cache.go:130-134 | Of several cached series with one label set it is the last that stays |
| QueryCache.JoinedKeepsTruth | pkg/query-service/querycache/query_range_cache.go:127-153 | If both sides hold points of the same underlying series, no point is lost at times when those are final |
| QueryCache.MergeOverlapping | pkg/query-service/querycache/query_range_cache.go:185-219 | Chunks in order of start are merged to chunks that cover the same times, non-empty and with gaps between them, each still complete on its interval if the given ones were; they hold only points of the given ones, and one for every label set and time at which one of those had a point |
| CachedQuery.Cache.Horizon | pkg/query-service/querycache/query_range_cache.go:75-86 | The flux horizon is now minus the flux interval, less than a minute earlier at most, and on a whole minute of now for steps of a minute or more |
| CachedQuery.HorizonOnStep | pkg/query-service/querycache/query_range_cache.go:75-86 | For steps below a minute it is the last step of now, minus the flux interval |
| CachedQuery.Cache.FindMissingTimeRanges | pkg/query-service/querycache/query_range_cache.go:52-116 | The whole query without a cache or key; otherwise the gaps between the cached chunks sorted by start, the last cut at the horizon; always every time asked for is missing or cached. On a cache as the querier leaves it: exactly when the ranges overlap, and exactly when all past the horizon is among them |
| CachedQuery.Cache.MergeWithCachedSeriesData | pkg/query-service/querycache/query_range_cache.go:167-225 | Cached and new chunks together are covered and kept complete, no time of a point is lost and no point invented, the result is stored under the key and under no other, and stored chunks stay non-empty with gaps between them and remain what was fetched for the key so far |
| CachedQuery.FetchMisses | pkg/query-service/app/querier/helper.go:123-145 | For each missing range in turn one chunk with the answer to that range, or a failure iff one of the queries fails |
| CachedQuery.RunBuilderQuery | pkg/query-service/app/querier/helper.go:121-156 | It fails, storing nothing, iff a query for a missing range does. Otherwise the answer is one series per label set with a point of the cached or fetched chunks for every time in range at which they have one. For a database that is final before the flux horizon, except at times that a range cuts: outside the open times the answer is the final one from start up to end, for every label set and with none missing, a point at end is final too, and the cache stays final; the open times grow only by missing times past the horizon and by cut ones. The cache then covers what it covered and what was fetched and loses no time of a point, the ranges fetched so far grow by those asked for, it stays in order, and other keys stay |
| CachedQuery.SettledAnswer | pkg/query-service/common/query_range.go:112-116 | When the whole range is settled the answer for a label set is its points in the range, with or without one at exactly end |
| EarlyCaching.FinalBeforeHorizon | pkg/query-service/querycache/query_range_cache.go:66-86 | A database that is final before the horizon and answers with points of the range only is all RunBuilderQuery needs; it then leaves open exactly the missing times at or past the horizon |
| EarlyCaching.FinalIffNotEarly | pkg/query-service/querycache/query_range_cache.go:64-86 | For chunks fetched on given intervals at given horizons: whatever the database answered, as long as that was final before the horizon, they hold its final points at some times iff none of these lies in an interval at or past its horizon |
| EarlyCaching.QueryLeavesOpenIff | pkg/query-service/querycache/query_range_cache.go:52-113 | So of what one query fetches the times left open are exactly the missing ones at or past the horizon; no smaller set will do, whatever the final points are |
| EarlyCaching.StaleAnswer | pkg/query-service/querycache/query_range_cache.go:64-113 | Two queries for the first ten minutes, ten minutes apart, with a flux interval of five: a point cached past the first horizon has changed and is before the second, yet nothing is fetched again and the second answer comes from what the first one fetched |
| BucketedQuery.UncutIsDirect | pkg/query-service/common/query_range.go:95-125 | For any rows, any aggregate and whatever rows a range reads: if no range cuts a bucket, the series put together from chunks that answer their ranges has exactly the points of the direct answer |
| BucketedQuery.MergedUncutIsDirect | pkg/query-service/querycache/query_range_cache.go:185-219 | The same when what was fetched before has been merged since, in any way that loses no time of a point |
| CutCounts.NeverShowsIff | pkg/query-service/app/logs/v4/query_builder.go:443-446 | For counts per bucket that holds for all rows, all ways of merging and all answers iff no range fetched before or asked for now cuts a bucket: every bucket the query reads starts in it and is read for some range, and a range that reads some of a bucket in the query reads as much of it as the query |
| BucketBounds.HalfOpenIff | pkg/query-service/app/metrics/v3/query_builder.go:64 | For ranges read up to before their end that means: the query starts on a step, and every range overlapping its buckets starts before it or on a step, and ends with it or before it on a step |
| BucketBounds.InclusiveIff | pkg/query-service/app/logs/v4/query_builder.go:363 | For ranges read with their end: the query starts on a step, and every range that touches its buckets ends with it and starts before it or on a step |
| MetricBuckets.AdjustedIff | pkg/query-service/app/metrics/v3/query_builder.go:336 | For bounds moved as metrics queries do, of any step: the query takes no extra step, and it starts on a step and every read inside it ends where its own does or before that on a step, or it reads nothing |
| MetricBuckets.MinuteFitsIff | pkg/query-service/common/query_range.go:34-36 | For steps up to a minute that means: it takes no extra step, and it starts on a step and no range has the last time of the bucket its end lies in, or it reads nothing |
| CutRanges.GotFitsLogsIff | pkg/query-service/querycache/query_range_cache.go:75-113 | Of a query that starts on a step, all ranges fetched and asked for that touch its buckets end with it and begin before it or on a step iff those fetched do and the gaps, given by the cached intervals and the flux horizon, do |
| CutQueries.LogsNeverShowIff | pkg/query-service/app/querier/helper.go:121-156 | For logs, on any cache the querier leaves: the answer equals the direct one for all rows iff the query starts on a step, every range fetched so far that has any of its buckets ends with it and begins before it or on a step, and of the cached chunks those sharing a bucket with it contain it (or the last one starts on a step and is wholly asked for again) and a horizon inside lies on a step |
| CutQueries.MetricsNeverShowIff | pkg/query-service/app/querier/helper.go:222-267 | For metrics of any step: iff the query takes no extra step, and it starts on a step and every read inside it, for ranges fetched so far or asked for now, ends where its own does or before that on a step, or it reads nothing |
| CutQueries.MinuteMetricsNeverShowIff | pkg/query-service/app/querier/helper.go:222-267 | For steps up to a minute, by the cached intervals alone: iff it takes no extra step, and it starts on a step and nothing cached has the last time of the bucket its end lies in, or it reads nothing |
| CutQueries.MergedMetricsStayDirect | pkg/query-service/querycache/query_range_cache.go:185-219 | However metrics chunks of steps up to a minute were merged, they hold exactly the aggregate of every bucket of which the last time is covered |
| CutQueries.AnswerIsDirect | pkg/query-service/app/querier/helper.go:146-154 | Where no range fetched or asked for cuts a bucket the whole answer is the direct one, however chunks were merged: one series per label set with exactly its points, for any aggregate |
| CutQueries.RowsAreFinalBefore | pkg/query-service/app/querier/helper.go:123-145 | A table that has all rows from before the horizon answers as RunBuilderQuery asks: final at every bucket but those a range asked for splits or the horizon has not passed |
| CutExample.CutBucket | pkg/query-service/app/querier/helper.go:121-156 | Two log rows in one minute, its first half cached: put together from the two halves, the count of the minute is 1 and directly 2, and again so when the halves were merged to one interval that looks whole |
| TimeRange.AdjustedMetricTimeRange | pkg/query-service/common/query_range.go:15-38 | For times since 1970 and positive steps: the start goes back to its step, one step further for a rate query that is not delta and one more for a running difference; the end goes back to its step, or to its minute for longer steps |
| TimeRange.AdjustedStartIsAligned | pkg/query-service/common/query_range.go:16-33 | The start is a multiple of the step, less than three steps before the original and, for times since 1970, exactly the last such multiple at or before it, moved back by the extra steps |
| TimeRange.AdjustedEndIsAligned | pkg/query-service/common/query_range.go:34-36 | The end is the last multiple of the step, or of a minute for longer steps, at or before the original |
| TimeRange.NeverInvertsIff | pkg/query-service/common/query_range.go:15-38 | No range of times since 1970 is inverted iff the step is at most 60, or a multiple of 60, or the query takes an extra step |
| TimeRange.NeverInvertsAnyTimeIff | pkg/query-service/common/query_range.go:15-38 | No range of any times is inverted iff the step is at most 60 or the query takes an extra step |
| TimeRange.MinAllowedStepNeverInverts | pkg/query-service/common/query_range.go:46-53 | Every positive minimum step never inverts a range of times since 1970 |
| TimeRange.MinAllowedStepIsGreatest | pkg/query-service/common/query_range.go:46-53 | For a range that is not inverted it is the greatest whole number of seconds, or of minutes from a minute on, such that 300 steps fit into the range |
| TimeRange.LiftedStepBoundsPoints | pkg/query-service/common/query_range.go:46-53 | After lifting a positive step to the minimum the range is shorter than 600 steps, twice the nominal 300 |
| TimeRange.BoundIsTight | pkg/query-service/common/query_range.go:46-53 | 599 would be false |
| TimeRange.QueryRangeParams.UpdateStepInterval | ee/query-service/anomaly/params.go:90-101 | The request step is the minimum or 60, and every query's step is raised to the minimum if below |
| TimeRange.GetStep | frontend/src/lib/getStep.ts:38-50 | Whole minutes, at least one; what the backend would choose for the range the right way round; equal to its step for the range as given iff that is not inverted or shorter than ten hours |
| TimeRange.DateOfIsMillis | frontend/src/lib/getStep.ts:15-30 | Seconds count a thousand milliseconds each, and of nanoseconds what is left over is dropped |
| TimeRange.FrontendMeetsBackend | frontend/src/lib/getStep.ts:38-49 | The divisions of both sides, nested in different orders, agree |
| TimeRange.PrepareQueryRange | ee/query-service/rules/anomaly.go:124-154 | Start and end are the whole minutes of the bounds, moved back by the whole milliseconds of a positive delay and by nothing else, not inverted, with the step of a request |
| TimeRange.MinuteIsUnique | ee/query-service/rules/anomaly.go:135-137 | A time has one whole minute only, so that this fixes both bounds |
| TimeRange.WindowsTouchIff | ee/query-service/rules/anomaly.go:128-137 | Windows of evaluations a fixed distance apart always touch, from any time on, iff the distance is at most the window |
| LcmList.GCD | pkg/query-service/common/query_range.go:55-60 | The loop ends with a common divisor that every common divisor divides, for any integers |
| LcmList.LCM | pkg/query-service/common/query_range.go:62-64 | The least common multiple up to sign; a division by zero iff both are zero |
| LcmList.LCMList | pkg/query-service/common/query_range.go:67-76 | Divisible by every element and dividing every common multiple, for any list; it panics iff two elements are zero |
| LcmList.LcmIsUnique | pkg/query-service/common/query_range.go:67-76 | Two positive results for permutations of a list are equal |
| ContextLinks.FindKey | pkg/query-service/contextlinks/links.go:181-210 | The key of a label: the first group-by item of that name, else the key known under the first of its eight enrichment names that is, else the one known under its plain name, else a new key |
| ContextLinks.PrepareFilters | pkg/query-service/contextlinks/links.go:150-221 | Every filter item in place, replaced by an equality if its key has a label, then one equality for every other label on its own key as above, in some order |
| ContextLinks.FiltersMean | pkg/query-service/contextlinks/links.go:130-150 | The filters accept a record iff it equals every label on that label's keys and satisfies every filter item without a label |
| ContextLinks.FiltersMeanByName | pkg/query-service/contextlinks/links.go:130-150 | The same for records by attribute name, when known keys are filed under their own names |
| ContextLinks.OrderDoesNotMatter | pkg/query-service/contextlinks/links.go:158-178 | Any two orders of visiting the labels give filters that accept the same records |
| ContextLinks.SameAsConjunctionIff | pkg/query-service/contextlinks/links.go:130-221 | The filters mean "where clause and labels" iff the labels satisfy the items that name them, or no record has the labels and satisfies the remaining items |
| ContextLinks.LabelAgainstFilter | pkg/query-service/contextlinks/links.go:130-221 | With the label env = prod and the filter env != prod they do not |
| Registry.StepKeepsInv | pkg/registry/registry.go:67-84 | Every step of a goroutine or of the receiver keeps: each result is in the channel or received exactly once after it was sent; and uses up one unit of work |
| RegistryRuns.SendNeverBlocks | pkg/registry/registry.go:35-72 | In every interleaving a goroutine with a result can send it at once |
| RegistryRuns.NeverBlocksIff | pkg/registry/registry.go:35-72 | That holds for all runs iff the channel has room for all services |
| RegistryRuns.NoDeadlock | pkg/registry/registry.go:67-84 | Until Stop returns some step is enabled |
| RegistryRuns.RunsEnd | pkg/registry/registry.go:67-84 | No run has more than four steps a service, and exactly the runs of that length have Stop returned and no goroutine left |
| RegistryRuns.StopJoinsAllErrors | pkg/registry/registry.go:75-83 | One result of every service is received, and the joined error holds exactly the non-nil ones, each as often as services returned it; it is nil iff all are nil |
| ResponseCapture.LoggingWriter.WriteHeader | pkg/http/middleware/response.go:66-72 | The invariant is kept and the header is passed on |
| ResponseCapture.LoggingWriter.Write | pkg/http/middleware/response.go:75-90 | The invariant is kept, the data is passed on after a 200 if the status was 0, the result of the wrapped writer is returned and its error remembered |
| ResponseCapture.LoggingWriter.CaptureResponseBody | pkg/http/middleware/response.go:112-122 | Data that fits is kept whole; otherwise what fits and an ellipsis are kept and capturing stops |
| ResponseCapture.WriteStep | pkg/http/middleware/response.go:81-83 | One write changes the captured text of any history in exactly that way |
| ResponseCapture.ErrorBodyIsWrittenAfter | pkg/http/middleware/response.go:66-90 | What is captured from is all that is written after the first header of 400 or at least 500, whatever headers follow, and nothing before |
| ResponseCapture.LoggingUntilFull | pkg/http/middleware/response.go:66-122 | Capturing is on from the first error header until the limit is passed, and the end is marked iff it was passed |
| ResponseCapture.MarkedTwiceIff | pkg/http/middleware/response.go:66-122 | The end is marked more than once iff an error header and then a non-empty write come after the limit was passed |
| ResponseCapture.CapturedIsTruncatedIff | pkg/http/middleware/response.go:66-122 | For any history of calls the captured text is the body after the first error header, cut once at 4096 bytes, iff that does not happen |
| ResponseCapture.SecondHeaderMarksAgain | pkg/http/middleware/response.go:66-122 | A body over the limit, a second error header and more body leave two ellipses |
| ResponseCapture.CapturedOfResponse | pkg/http/middleware/response.go:66-122 | With one header before the body: nothing unless it is 400 or at least 500, else the whole body up to 4096 bytes or its first 4096 and three dots, however it was split |
| MetricTemporality.Preferred | pkg/query-service/app/http_handler.go:535-541 | Delta iff it is listed, Cumulative iff it is and Delta is not |
| MetricTemporality.APIHandler.FillFromCache | pkg/query-service/app/http_handler.go:528-551 | Queries without temporality take the preferred cached one, and exactly the metrics of metrics queries still lacking one are collected |
| MetricTemporality.APIHandler.FillFetched | pkg/query-service/app/http_handler.go:558-573 | Metrics queries still lacking one take the preferred fetched one, and exactly their metrics are remembered as fetched |
| MetricTemporality.APIHandler.PopulateTemporality | pkg/query-service/app/http_handler.go:522-574 | For a fixed table: whatever is cached, a metrics query without temporality gets the one the table prefers; the cache never differs from the table and grows by exactly the metrics it could not answer; a failing reader leaves it alone |

## Left out

Alert rules:
- Template expansion, label building and hashing, receivers, generator links and the value formatter; a sample arrives with the hash its alert is stored under and the hash of its own labels.
- RecordRuleStateHistory, which also repairs the history after a restart; the records handed to it are modelled.
- A Go zero time is an absent time, so an evaluation exactly at the zero time is not modelled.

Traces:
- getSpanReferences, getSpanTags and JSON parsing; a span arrives with its parsed CHILD_OF references. Non-number durations are not modelled, and times are reals.
- JavaScript's order of object keys (any order is allowed) and keys such as those of Object.prototype.
- TraceForest.SummarizeTrace: takes span lists on which the recursion ends, exactly those of TraversalEndsIff; on others the source overflows its stack.

Agent configs:
- Concurrent interleavings inside one call: every call is one step, although the source reads and writes in separate statements without a transaction.
- Failures of the status updates, which the source logs and ignores; GetConfigHistory, GetConfigVersion, Redeploy and the Upsert calls; notification of subscribers; failures to create the tables.
- AgentConf.Manager.StartNewVersion: takes the new uuid to be unused, since the clean-up after a failed insert deletes by that id; InsertConfig says what happens otherwise.
- The `$4` in the update by hash is read as its third argument, as SQLite binds numbered parameters in order of first appearance.

Cached queries:
- Chunks and their series are values, as the cache keeps them serialized; the sharing of points between merged series within one call is not modelled.
- Label sets stand for their hashes, so colliding hashes are not modelled; values are reals, and integers have no width.
- Open times: two points of one time may be merged there, and since sort.Slice is not stable which of them survives is open; SeriesCache.Series.SortPoints promises no order among them.
- The database behind bucketed queries counts or aggregates rows of one label set in a bucket. Limits, `having`, and what metrics queries compute across buckets (rates, running differences) are not modelled; extra steps are buckets read before the start.
- CutQueries.MetricsNeverShowIff: takes times since 1970, before which remainders are negative.
- CachedQuery.RunBuilderQuery: leaves open whether a point at exactly `end` is returned, which depends on whether some chunk happens to hold it, and allows further series without points from cached chunks.
- CachedQuery.Cache.FindMissingTimeRanges: takes a step other than 0, at which the source divides by zero.
- The branches of the querier that bypass the cache, cursors and limits, and key generation.

Time ranges:
- The detour over float64 in min and max, which is exact in the ranges used, and overflow of 64-bit integers.
- TimeRange.AdjustedMetricTimeRange: takes a step other than 0, at which the source divides by zero.
- Dates that are not numbers in getStep; fractions of a millisecond are cut as the Date constructor does.

Smaller parts:
- Aggregated operators and how filters become SQL: operators other than equality are arbitrary relations, and label values are texts.
- Registry.Start and Wait, whose channel has room for one result only; a second call of Stop on one registry.
- Hijack, Flush and errors of the log buffer.
- The temporality mutex: every call is one step. A table that changes between calls is not modelled; queries that are not about metrics also take cached temporalities, as FillFromCache says.
- Seasonal anomaly scores, unit conversion, HTTP routing, storage and user interface code would only add easy or floating-point members.
