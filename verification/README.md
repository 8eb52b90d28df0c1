# IkelyaneMonitor: verified model

A Dafny model of the domain logic of IkelyaneMonitor, an infrastructure monitoring platform: its
dependency-map engine, root-cause analysis, remediation protocol, narrative leases, telemetry delivery,
and the algorithms beside them. `dafny verify dfyconfig.toml` checks everything.

How to read it, hardest parts first:

- **Dependency map** (`Digraph`, `Walks`, `DependencyMap`, `DepthFirst`, `Cycles`, `Layering`, `Rows`, `Layout`,
  `RootCause`). Edges are lists, parallel edges included; the edges to set aside are identified by their
  place in the list, as the code identifies them by object. The iterative depth-first search and the
  breadth-first walk are each followed step by step by a function (`DepthFirst.Run`, `Walks.Found`); their
  graph theory is proved by induction on the number of steps, and the loops are proved to follow them.
- **Remediation** (`Guard`, `Executions`, `ExecutionSafety`, `Handovers`, `ExecutionService`). A run is
  any list of atomic statements by any number of callers: a creation takes its lock, reads the history and
  inserts its row in separate events; approvals, cancellations, claims, results and the three statements
  of a sweep come in between in any order. The theorems are about every run. The class
  `ExecutionService.Database` holds the operations as callers run them, with what others do between their
  statements given as arguments, and ties each to the run.
- **Narratives** (`Narratives`, `Leases`, `NarrativeService`, `NarrativeLoop`): the lease and version-stamp protocol
  of one incident in the same style, and the call budget of the loop.
- **Delivery** (`MetricStore`, `Buffer`, `Delivery`): chunked idempotent inserts, the bounded queue of
  unsent payloads, and a ledger of what became of every payload over a network that loses requests and
  answers.
- **Alerts** and **AlertService**, **Checks**, **SlowLog**, **Baseline**, **Base32**, **Keys** and
  **ShapeText**: streaks and incidents, the check scheduler, slow-work counters, median and MAD baselines,
  the base32 codec on wrapping 32-bit integers, and the value-free text of database commands.

Times are integers (milliseconds; the buffer uses nanoseconds), coordinates and statistics are real
numbers. `Common` holds the option type and a few functions, `Sequences` a stable sort. Clocks, the
network, the language model and name collation are parameters.

Where the code and its documentation disagree, the model follows the code:

- An array of one element and an array of several have different shapes, so an insert of one document and
  an insert of a thousand do not share a shape (`ShapeText.ArrayShape`), unlike the comment at
  agent/internal/dbmetrics/mongodb.go:289-292.
- The baseline of a rule whose duration exceeds 23 h 20 min reaches into the stretch under evaluation
  (`Baseline.OngoingIsExcluded` gives the exact bound), unlike the comment at
  src/modules/aiops/anomaly.ts:6-11; the form accepts up to 24 h.

Promises the code keeps only under a condition, given exactly:

- Stored narratives describe the findings shown if and only if a stamp comes back only while the findings have
  stayed the same (`Narratives.TrustedExactly`); strictly increasing stamps are enough.
- A series has at most one unresolved incident all along a run if and only if no step is a late
  acknowledgement beside another unresolved incident, or an opening while one has become unresolved
  (`Alerts.OneUnresolvedExactly`); a run that breaks it is `Alerts.LateAcknowledgementRevives`.
- The fallback list of a "symptom" verdict is never needed, whatever fails, if and only if no node that another
  one depends on lies on a cycle (`DependencyMap.FallbackExactly`).
- An approval does not give an execution a fresh hour: `Handovers.LateApprovalExpires` says when it expires.

## Model

| member | source | states |
|---|---|---|
| Walks.BuildIndex | src/modules/topology/graph.ts:13-22 | the index lists, for every node, the far ends of its edges in edge order, parallel edges repeated |
| Walks.Reach | src/modules/topology/graph.ts:25-39 | the result is exactly the nodes other than the start that some walk reaches, each once, none nearer than an earlier one, cycles included |
| Walks.FoundAreDistances | src/modules/topology/graph.ts:25-39 | once every found node is expanded, the found nodes are all the reachable ones, labelled with lengths of walks that no shorter walk beats |
| DependencyMap.BlastRadius | src/modules/topology/graph.ts:45-47 | exactly the nodes that depend on the failed one, directly or transitively, each once, nearest first, the failed node excluded |
| DependencyMap.DependenciesOf | src/modules/topology/graph.ts:50-52 | exactly what the node depends on, directly or transitively, each once, nearest first |
| Digraph.DependenciesAreConverse | src/modules/topology/graph.ts:45-52 | b is in the blast radius of a exactly when a is a dependency of b |
| DependencyMap.RootCauseCandidates | src/modules/topology/graph.ts:59-66 | exactly the unhealthy nodes none of whose direct dependencies is unhealthy, largest blast radius first, names breaking ties |
| DependencyMap.EverySymptomHasARoot | src/modules/topology/graph.ts:54-66 | where no cycle lies ahead, so everywhere on an acyclic map, an unhealthy node is a candidate or depends on one along unhealthy nodes only |
| DependencyMap.ImpactedNodes | src/modules/topology/health.ts:28-32 | exactly the healthy nodes with an unhealthy transitive dependency |
| Cycles.BackEdges | src/modules/topology/graph.ts:76-104 | terminates; what is kept has no cycle, each edge set aside closes a cycle with kept edges, an acyclic input loses nothing |
| Cycles.KeptIsAcyclic | src/modules/topology/graph.ts:76-104 | when the search is over the kept edges form an acyclic graph |
| DepthFirst.RunDescends | src/modules/topology/graph.ts:86-101 | at every step, a kept edge out of a finished node leads to a node that finished earlier |
| Cycles.SetAsideCloses | src/modules/topology/graph.ts:94-96 | at every step, an edge set aside closes a cycle with edges that are kept |
| Cycles.NothingSetAside | src/modules/topology/graph.ts:75-104 | an acyclic graph loses no edge |
| Cycles.RunProgresses | src/modules/topology/graph.ts:86-101 | each iteration of the search finishes a node, discovers one, or passes an edge, which is why it ends |
| Layering.LongestPathLayers | src/modules/topology/graph.ts:121-137 | every node is dequeued exactly once, after all its parents, and its layer is the length of the longest path ending at it |
| Layering.LayIsLongest | src/modules/topology/graph.ts:131-132 | raising children in topological order computes longest paths, parallel edges included |
| Layering.AllDequeued | src/modules/topology/graph.ts:128-137 | when the queue runs dry no node is left behind |
| Rows.GroupByLayer | src/modules/topology/graph.ts:139-144 | row d holds the connected nodes of layer d in input order, down to the deepest layer |
| Rows.OrderLayers | src/modules/topology/graph.ts:148-159 | each layer is sorted by the barycentre of the parents placed by the layers above it; what that means on the coordinates is in Layout.LayoutIsReadable |
| Rows.Place | src/modules/topology/graph.ts:161-166 | every node of every row gets the position of its row and column |
| Layout.LayeredLayout | src/modules/topology/graph.ts:113-167 | for any node list and edge list, cycles, self-loops and unknown ids included, the positions draw a picture: cycles broken, connected nodes on the row of their longest path and isolated ones on the bottom row, each row ordered; every node gets one position and, with positive gaps, no two share one; on an acyclic map each row follows its parents from left to right |
| Layout.LayoutIsReadable | src/modules/topology/graph.ts:106-112 | what any such positions show: exactly the given nodes, all apart; a connected node on the row of its longest chain of dependents, isolated ones on the bottom row; of two nodes at one height the one whose parents are further left on average stands left, the input order deciding ties; and on an acyclic map every edge pointing down |
| Layout.EveryNodeHasItsPlace | src/modules/topology/graph.ts:106-112 | exactly the given nodes get a position, and with positive gaps no two share one |
| Layout.EdgesPointDown | src/modules/topology/graph.ts:106-112 | with a positive row gap every kept edge goes strictly downward |
| Layout.HeightIsLevel | src/modules/topology/graph.ts:163-165 | a node's y is its row times the row gap |
| Layout.NoGap | src/modules/topology/graph.ts:139-144 | no layer of connected nodes is empty |
| Layout.RowIsOrdered | src/modules/topology/graph.ts:147-159 | each row is ordered by the mean final position of its nodes' parents, input order breaking ties |
| Layout.LeftExactly | src/modules/topology/graph.ts:147-165 | of two nodes on one row the first stands left if and only if the x coordinates of its parents have the smaller mean, parallel edges counted, or the same and it comes first in the input |
| Rows.RowIsCentred | src/modules/topology/graph.ts:111 | the x coordinates of every row add up to zero |
| Rows.RowIsSpaced | src/modules/topology/graph.ts:161-166 | neighbours on a row are exactly one column gap apart, at one height |
| RootCause.FileByNode | src/modules/aiops/rca.ts:93-100 | every node is listed with exactly its relevant incidents, in input order |
| RootCause.MappedIsLast | src/modules/aiops/rca.ts:93-102 | an incident sits on the last node listed for its source, and on none without one |
| RootCause.Explain | src/modules/aiops/rca.ts:111-138 | failing dependencies, failing dependents, origins and blast radius are exactly those of the map, in their order (nearest first, origins by the breakage they explain), and the verdict follows from which of them exist |
| RootCause.SymptomsHaveOrigins | src/modules/aiops/rca.ts:120-123 | where nothing depended upon lies on a cycle, so on every acyclic map, each failing dependency leads to one that explains it |
| DependencyMap.FallbackExactly | src/modules/aiops/rca.ts:123 | whatever node is analysed and whatever fails, the fallback list is never needed if and only if no node that another depends on lies on a cycle |
| RootCause.OriginsAreRoots | src/modules/aiops/rca.ts:116-123 | failing dependencies and root causes of an analysis are those of the map for the nodes where other relevant incidents sit |
| RootCause.AnalysesAgree | src/modules/aiops/rca.ts:114-136 | A counts B's node as a failing dependency exactly when B's analysis counts A's node as a failing dependent |
| RootCause.LinksAre | src/modules/aiops/rca.ts:103-136 | the linked incidents are exactly those on the same source or on a failing dependency or dependent |
| RootCause.EveryPeerIsPlaced | src/modules/aiops/rca.ts:140 | an incident of the window is listed as a mere coincidence exactly when nothing links it |
| RootCause.StoryDeserves | src/modules/aiops/rca.ts:106-138 | the verdict is symptom exactly when a dependency fails, root cause when only a dependent does, isolated otherwise |
| RootCause.RefsAreSorted | src/modules/aiops/rca.ts:80-103 | every list of incidents is sorted by its comparator |
| RootCause.AnalyzeIncident | src/modules/aiops/rca.ts:70-156 | the verdict is the one the map and the other incidents deserve; the stored findings are a full report with every list nearest in time first, cut so that the ten entries kept come before all those dropped, whose counts, flag and weight come from the full lists; every incident listed anywhere is one of the others, active or of the window, with the signed offset of its start to the nearest second |
| RootCause.ExplanationsWeighMore | src/modules/aiops/rca.ts:162-173 | weights lie between 0.2 and 0.9, and no unexplained verdict outweighs an explained one |
| RootCause.WeightsFollow | src/modules/aiops/rca.ts:158-173 | one failing dependency outweighs several, dependents explained and an early start never lower the weight of a root cause, and company lowers that of an isolated incident |
| Guard.GuardPasses | src/modules/remediation/guard.ts:29-48 | the guard lets a run through exactly when the host's policy accepts the script and no counted run is live, within the cooldown, or over the hourly cap |
| Guard.HistoryReasons | src/modules/remediation/guard.ts:42-47 | for a script the host accepts, a live run is reported before the cooldown and the cooldown before the hourly cap, each exactly when it applies |
| Guard.PolicyReasons | src/modules/remediation/guard.ts:36-41 | each of the five policy reasons is given exactly when it applies and none before it does, whatever the history |
| Guard.BoundedIsEnough | src/modules/remediation/executions.ts:112-116 | the bounded history query gives the verdict of the full history |
| ExecutionSafety.QueryIsEnough | src/modules/remediation/executions.ts:112-116 | the same on the table of rows, for one action on one host |
| ExecutionSafety.NoViolationIsClear | src/modules/remediation/executions.ts:112-117 | the query lets an execution through if and only if the policy accepts it and the rows of that action on that host are clear |
| ExecutionSafety.RunIsExclusive | src/modules/remediation/executions.ts:111 | at most one creation per action and host is past the lock |
| ExecutionSafety.RunIsReady | src/modules/remediation/executions.ts:111-120 | what the guard let through is still clear of every other run when the row is inserted, whatever others did meanwhile |
| ExecutionSafety.OnlyCreationsAdd | src/modules/remediation/executions.ts:96-123 | rows are added one at a time, by an insertion or for an action without a host |
| ExecutionSafety.OneLive | src/modules/remediation/executions.ts:96-123 | over every run, an action has at most one live execution on a host |
| ExecutionSafety.Spaced | src/modules/remediation/guard.ts:42-45 | over every run, counted executions of an action on a host are created in order, at least the cooldown apart |
| ExecutionSafety.HourlyCap | src/modules/remediation/guard.ts:46 | over every run, any half-open hour holds at most maxRunsPerHour counted executions |
| ExecutionSafety.RunEvolves | src/modules/remediation/executions.ts:11-21 | rows only move forward in rank and never change their snapshot |
| ExecutionSafety.FinalStays | src/modules/remediation/executions.ts:11-21 | a final row never changes again |
| Handovers.HandedOnce | src/modules/remediation/executions.ts:223-233 | each execution is handed out at most once, however many claimers there are |
| Handovers.HandedIsVetted | src/modules/remediation/executions.ts:18-19 | what is handed out is the script and timeout frozen at creation with that script's hash, accepted by the host's policy at creation and again at approval when one was needed |
| Handovers.AnsweredOnce | src/modules/remediation/executions.ts:255-278 | each execution gets at most one stored result |
| Handovers.AnsweredWasHanded | src/modules/remediation/executions.ts:255-270 | only what was handed out is ever answered |
| Handovers.OnlyReportsSucceed | src/modules/remediation/executions.ts:255-270 | over every run, an execution is succeeded or failed only if its result was stored |
| Handovers.SweepEndsOverdue | src/modules/remediation/executions.ts:280-300 | a sweep cancels as expired exactly what waited too long, times out as lost exactly what ran too long, and changes nothing else |
| Handovers.LateApprovalExpires | src/modules/remediation/executions.ts:150-153 | an approved execution is cancelled by the next sweep exactly when it was created over an hour before |
| ExecutionService.Database.CreateExecution | src/modules/remediation/executions.ts:96-123 | a row is inserted unless the action does not exist or the lock was held at every turn; it carries the snapshot read, and is let through exactly when the policy accepts and the rows of the action on the host are clear at the moment of the query, made under the lock; it waits for a person exactly when it needs one |
| ExecutionService.Database.ApproveExecution | src/modules/remediation/executions.ts:141-160 | succeeds only on a row still awaiting approval, which becomes pending exactly when the host's policy still accepts its script, and otherwise is skipped with a reason; nothing else of it changes |
| ExecutionService.Database.CancelExecution | src/modules/remediation/executions.ts:162-176 | cancels exactly a row awaiting approval or pending, and tells a missing row from one past cancelling |
| ExecutionService.Database.ClaimNextExecution | src/modules/remediation/executions.ts:224-233 | at most three attempts, each on the host's oldest pending row when read; gives up only when a read finds nothing or all three rows were taken before the update; what is returned is running now and is what the history says was handed out |
| ExecutionService.Database.RecordExecutionResult | src/modules/remediation/executions.ts:256-278 | stores a result exactly when the row is running on the reporting host |
| ExecutionService.Database.SweepExecutions | src/modules/remediation/executions.ts:281-300 | whatever others do between its statements, every row overdue at the start has moved on at the end, and each row is left expired, given up or as it was according to what the statement that read it found |
| ExecutionService.QuietSweep | src/modules/remediation/executions.ts:281-300 | undisturbed, the three statements leave every row of the whole table as a sweep should |
| ExecutionService.StaleReadIsFine | src/modules/remediation/executions.ts:226-230 | the payload read before the compare-and-set is the one the row still has |
| Narratives.NarrativeMatches | src/modules/aiops/rca-llm.ts:163-188 | when a stamp comes back only while the findings stay the same, a stored narrative was always produced from the findings now on the incident |
| Narratives.TrustedExactly | src/modules/aiops/rca-llm.ts:163-188 | for any sequence of re-analyses, every run over them or the first of them shows only matching narratives if and only if their stamps are safe in that sense |
| Narratives.IncreasingIsSafe | src/modules/aiops/rca.ts:226-235 | strictly increasing stamps are safe |
| Narratives.Mislead | src/modules/aiops/rca-llm.ts:182-185 | a run, from the start, that stores a narrative of other findings than those shown, whenever a stamp comes back with the findings changed in between |
| Narratives.ClaimsAreBounded | src/modules/aiops/rca-llm.ts:135-161 | each generation of findings is claimed at most three times per request |
| Leases.ClaimsAreApart | src/modules/aiops/rca-llm.ts:150-156 | while nobody re-analyses and the holder has not answered, the next claim comes at least a lease and a settling time later |
| Leases.FailureBacksOff | src/modules/aiops/rca-llm.ts:189-200 | after a failure the request may be claimed again exactly from two minutes per attempt on, and never after the third attempt |
| Leases.RequestsAreDue | src/modules/aiops/rca-llm.ts:206-213 | a request made by hand is due at once, one made by a re-analysis a minute later |
| Leases.AnswersEndIt | src/modules/aiops/rca-llm.ts:171-187 | a stored answer and a refusal end the request; the refusal leaves the narrative as it was |
| NarrativeService.Worker.ClaimRequest | src/modules/aiops/rca-llm.ts:151-158 | wins exactly when the request is due, then reads the stamp it will be judged by |
| NarrativeService.Worker.ServeNarrative | src/modules/aiops/rca-llm.ts:167-202 | withdraws the request when there are no findings; otherwise stores the answer exactly when it is one and the stamp read is still current, and says what each other outcome leaves; what is stored describes the findings shown under safe stamps |
| NarrativeLoop.RunNarrativeLoop | src/modules/aiops/rca-llm.ts:221-236 | each tick serves up to three requests within what the calls of the last hour leave of the cap, and any closed hour holds at most maxPerHour calls, whatever the claims return |
| NarrativeLoop.OnlyTheCapTurnsAway | src/modules/aiops/rca-llm.ts:221-236 | a request offered is turned away only after three others at the same turn or when the calls of the last hour use up the cap |
| MetricStore.WriteMetricRows | src/lib/telemetry/ingest.ts:29-39 | inserting in chunks leaves the table of one insert, and counts the rows really stored |
| MetricStore.InsertAllKeepsKeysOnce | src/lib/telemetry/ingest.ts:24-28 | each metric key is stored at most once |
| MetricStore.ReplayIsHarmless | src/lib/telemetry/ingest.ts:24-28 | sending a batch again, however much later, changes nothing |
| Buffer.Queue.Push | agent/internal/buffer/buffer.go:47-58 | the queue never exceeds 500 payloads; exactly the oldest make room |
| Buffer.Queue.EvictIfFull | agent/internal/buffer/buffer.go:104-125 | drops exactly the oldest entries until there is room for one more |
| Buffer.Queue.Pending | agent/internal/buffer/buffer.go:60-94 | lists the queue oldest first after removing exactly the entries past their age |
| Buffer.PutBodies | agent/internal/buffer/buffer.go:51-56 | writing a payload adds it and loses only one of the same name |
| Delivery.Agent.FlushBuffer | agent/cmd/ikelyane-agent/main.go:304-334 | exactly the expired payloads go, then those before the first lost request, at most 20, each acknowledged or rejected by its own fate; every young payload from the first network error, lost answer or server error on stays |
| Delivery.Agent.SendOrBuffer | agent/cmd/ikelyane-agent/main.go:336-353 | on a network error, a lost answer or a server error the payload is in the queue afterwards, the oldest making room; otherwise the queue is left alone; a payload the server took is in its table, whole |
| Delivery.RunIsSound | agent/cmd/ikelyane-agent/main.go:304-353 | over every run of replays and new payloads, each payload is acknowledged, rejected, evicted, expired, overwritten or still buffered; acknowledged ones are in the table, whose keys are stored once; the queue stays bounded and in order |
| Delivery.LeavesOnlyWhen | agent/cmd/ikelyane-agent/main.go:315-333 | a buffered payload leaves exactly when it is past its age, evicted, overwritten, or answered |
| Delivery.LostStaysBuffered | agent/internal/buffer/buffer.go:1-4 | while every request meets a network error, a lost answer or a server error, a payload stays buffered until its age, an eviction or an overwrite |
| Delivery.LostIsKept | agent/internal/buffer/buffer.go:1-4 | then a payload stays buffered from the moment it is produced to the end of the run, unless its age, an eviction or an overwrite displaces it |
| Delivery.PushBalances | agent/internal/buffer/buffer.go:47-58 | buffering one payload accounts for everything it displaces |
| Delivery.SettlingBalances | agent/cmd/ikelyane-agent/main.go:321-331 | removing the payload replayed accounts for it, acknowledged or rejected by its fate |
| Delivery.LedgerIsTrue | agent/internal/telemetry/client.go:92-128 | over every run, a payload counted as acknowledged was accepted at some event, and one counted as rejected was refused for good, by anything but a server error |
| Alerts.StreakSince | src/modules/alerts/evaluate.ts:46-53 | the time of the oldest point of the longest unbroken streak from the newest |
| Alerts.CutIsSafe | src/modules/alerts/evaluate.ts:96-102 | cutting history at 500 points never makes a breach look sustained, and hides one exactly when the streak fills the lookback too recently |
| Alerts.OpensExactly | src/modules/alerts/evaluate.ts:81-214 | in any run, an evaluation opens an incident if and only if nothing was unresolved when it looked and the condition had held without a break for the rule's duration, as far as the 500 points show, whatever people do before it writes |
| Alerts.OpenedBySustained | src/modules/alerts/evaluate.ts:187-214 | every incident of every run was opened by an evaluation whose look saw nothing unresolved and an unbroken streak of at least the rule's duration, and carries the time and value of that look |
| Alerts.ResolvesExactly | src/modules/alerts/evaluate.ts:187-275 | in any run, an evaluation resolves the incident it found if and only if the condition had not held for the rule's duration; otherwise it records the value and leaves the status as people left it; other incidents stay as they are |
| Alerts.BothMustHold | src/modules/alerts/evaluate.ts:61-74 | with a limit and an anomaly both must hold, a learning detector never does, and a value is anomalous by its distance from the median |
| Alerts.OperatorsAreOpposite | src/modules/alerts/evaluate.ts:14-29 | each operator breaches exactly where its opposite does not, and at the limit itself only when it includes it |
| Alerts.OneUnresolvedExactly | src/modules/alerts/evaluate.ts:189-275 | at most one incident is unresolved all along a run if and only if every step is harmless: no late acknowledgement beside another unresolved incident, no opening while one has become unresolved |
| Alerts.AtMostOneUnresolved | src/modules/alerts/evaluate.ts:189-275 | in particular, sequential evaluation keeps at most one unresolved incident whatever people do, unless an acknowledgement lands late |
| Alerts.LateAcknowledgementRevives | src/modules/incidents/service.ts:119-126 | a run, from the start, in which a late acknowledgement leaves two unresolved incidents |
| AlertService.Series.Evaluate | src/modules/alerts/evaluate.ts:181-275 | reads, lets people act, then opens, records or resolves exactly as Alerts.OpensExactly and Alerts.ResolvesExactly say; when the newest point does not fulfil the condition the unresolved incident found is resolved; leaves at most one unresolved incident when no acknowledgement lands late |
| AlertService.Series.AcknowledgeIncident | src/modules/incidents/service.ts:117-127 | acknowledges exactly an incident read as open, whatever happens before the write |
| AlertService.Series.ResolveIncident | src/modules/incidents/service.ts:129-142 | resolves exactly an incident read as unresolved |
| Alerts.PeaksAreWorst | src/modules/alerts/evaluate.ts:247-254 | the peak is the maximum evaluated since opening for an upper limit, the minimum for a lower one, and the latest for a limit of equality |
| Alerts.PeakTells | src/modules/alerts/evaluate.ts:89-94 | the peak breaches an upper or lower limit if and only if some value seen does |
| Alerts.PeakFollowsAnomaly | src/modules/alerts/evaluate.ts:76-81 | without a limit the peak moves towards the newest value on the side of the median where that lies |
| Checks.RunIsDisjoint | src/modules/saas/runner/runner.ts:59-82 | concurrent runners hold disjoint sets of checks, all of them due |
| Checks.ClaimsAreApart | src/modules/saas/runner/runner.ts:59-82 | two claims of a check with no edit in between are at least its interval apart |
| Checks.ClaimAdvances | src/modules/saas/runner/runner.ts:59-82 | at any moment any due checks nobody holds may be claimed; afterwards exactly those are next due one interval later, and the others are as they were |
| Checks.InFlightIsBounded | src/modules/saas/runner/runner.ts:170-197 | over every run of a loop, with claims whose limit is fixed before a wait during which probes end, at most `concurrency` probes are in flight |
| Checks.Runner.Tick | src/modules/saas/runner/runner.ts:177-194 | one tick as code: fixes the limit, lets probes end while it waits, starts what was claimed |
| SlowLog.Monitor.SlowlogDeltas | agent/internal/dbmetrics/redis.go:160-188 | moves the cursor to the newest entry and aggregates exactly the entries past the old one, per command |
| SlowLog.CallsAreEntries | agent/internal/dbmetrics/redis.go:172-188 | the calls of a command are the number of entries counted for it |
| SlowLog.TotalIsInRange | agent/internal/dbmetrics/redis.go:172-188 | its total duration lies between its calls times the shortest and times the longest of them |
| SlowLog.CountedOnce | agent/internal/dbmetrics/redis.go:157-169 | every entry is counted by at most one poll, across resets, empty windows and server restarts after which identifiers start again |
| SlowLog.NothingMissed | agent/internal/dbmetrics/redis.go:157-188 | a command logged between two polls of one run of the server is counted by the second if the window still shows it |
| SlowLog.JustLoggedIsCounted | agent/internal/dbmetrics/redis.go:157-188 | a command logged with a new identifier is counted by a poll that follows at once |
| SlowLog.Monitor.SlowQueryDeltas | agent/internal/dbmetrics/slowqueries.go:38-75 | reports each statement's rise since the previous poll and remembers this one |
| SlowLog.ReportedAtMostMade | agent/internal/dbmetrics/slowqueries.go:30-55 | the calls reported for a statement never exceed what its counter has risen by, across resets and evictions |
| SlowLog.ReportsExactly | agent/internal/dbmetrics/slowqueries.go:45-75 | a poll reports a statement if and only if its counters have risen since the previous poll by calls slow enough on average, with their mean time and number |
| SlowLog.RememberedExactly | agent/internal/dbmetrics/slowqueries.go:38-50 | a poll remembers the last counters of each statement with a usable fingerprint, and nothing else |
| Baseline.BaselineForgetsOrder | src/modules/aiops/anomaly.ts:68-76 | the baseline does not depend on the order of the sample |
| Baseline.MedianIsInside | src/modules/aiops/anomaly.ts:62-65 | while fewer than half of the values are outside a range the median is inside it |
| Baseline.MedianMirrors | src/modules/aiops/anomaly.ts:62-65 | the median of the negated sample is the negated median, for even and odd sizes alike |
| Baseline.MadIsBounded | src/modules/aiops/anomaly.ts:71-74 | and the MAD is at most the range's width |
| Baseline.FarValuesAreFlagged | src/modules/aiops/anomaly.ts:86-91 | a value far enough outside the range of the majority is flagged whatever the others are |
| Baseline.ScoreTellsAnomaly | src/modules/aiops/anomaly.ts:78-91 | the score is at least one half exactly when the value is anomalous, and always below one |
| Baseline.SmallDeviationsPass | src/modules/aiops/anomaly.ts:27-28 | a deviation of less than a twentieth of the median is never an anomaly, however flat the series |
| Baseline.SensitivitiesFlag | src/modules/aiops/anomaly.ts:31-32 | the sensitivities flag from three, four and a half and six scales on, so what a less sensitive rule flags a more sensitive one flags |
| Baseline.LearnsFromThirty | src/modules/aiops/anomaly.ts:68-76 | there is a baseline exactly from thirty finite points on, with their median |
| Baseline.BaselineRanges | src/modules/aiops/anomaly.ts:44-53 | the ranges hold exactly the recent past before the stretch under evaluation and the same time of day on seven days; none is empty |
| Baseline.OngoingIsExcluded | src/modules/aiops/anomaly.ts:40-53 | the stretch under evaluation, with its ten minutes of margin, is outside the sample exactly when the duration is at most 23 hours and 20 minutes |
| Base32.Encode | src/lib/auth/totp.ts:17-31 | the text is the unpadded base32 form of section 6 of RFC 4648, although the accumulator overflows |
| Base32.Decode | src/lib/auth/totp.ts:33-49 | the bytes are the whole bytes in the bits of the characters kept |
| Base32.OneText | src/lib/auth/totp.ts:17-31 | a byte string has only one such text |
| Base32.OneReading | src/lib/auth/totp.ts:33-49 | a text has only one reading |
| Base32.RoundTrip | src/lib/auth/totp.ts:17-49 | decoding an encoded byte string of any length returns it exactly |
| ShapeText.WriteShape | agent/internal/dbmetrics/mongodb.go:301-345 | what is appended to the shared builder is the printed shape of the value at its depth, maps in key order |
| ShapeText.RedactShape | agent/internal/dbmetrics/mongodb.go:293-297 | the text of a command is its shape from depth zero, printed |
| ShapeText.Unambiguous | agent/internal/dbmetrics/mongodb.go:301-358 | no printed text continues one shape and another |
| ShapeText.SameTextSameShape | agent/internal/dbmetrics/mongodb.go:289-297 | two commands print the same text exactly when their redacted shapes are equal |
| ShapeText.ShapeHidesValues | agent/internal/dbmetrics/mongodb.go:289-292 | the shape depends on no value |
| ShapeText.ShapeHidesIteration | agent/internal/dbmetrics/mongodb.go:327-337 | nor on the order in which a map is iterated over |
| ShapeText.NamesShown | agent/internal/dbmetrics/mongodb.go:309-323 | the names shown for an object are exactly its keys that look like identifiers, a question mark standing for the others, without the session fields at the top |
| ShapeText.FieldIsPrinted | agent/internal/dbmetrics/mongodb.go:309-323 | every field of a command that is neither a session field nor oddly named appears in the text |
| Keys.IterationOrderIsLost | agent/internal/dbmetrics/mongodb.go:328-336 | sorting the fields of a map by key gives one list, whatever the order they come in |

## Left out

- User interface, server actions, permissions, forms, audit rows and notifications.
- Object identity: an edge is identified by its place in the list; node identifiers are assumed distinct in a layout.
- Floating-point rounding in coordinates, baselines and rates: real numbers.
- Labels, titles and metrics of incidents in the findings, and `signature`: pass-through text and a comparison of lists. An empty source identifier is treated as none.
- Reading and filtering of incidents and of the map from the database before an analysis: the lists are arbitrary inputs.
- Organisations: everything is within one.
- `createdAt` of an execution is the `now` of the creating call; deletion of hosts, actions and executions, and output truncation, are not modelled.
- Collisions of the hashed lock key: they only make creations wait longer.
- Cryptographic hashes: a function parameter; the one-time-password digest is not modelled.
- ExecutionService.Database.SweepExecutions: the count it returns in the original is not modelled.
- Narratives: one incident at a time, since claims on different incidents do not interact; the order in which due incidents are picked is not modelled.
- The text of error messages on an incident, and of the prompt.
- Alerts: notifications, the re-notification cooldown, and the trigger of a remediation or an analysis when an incident opens; `reopenIncident`; wildcard rules over several instances; concurrent evaluations of one series, which the code does not serialise.
- `evaluateIngestedMetrics` picking the latest point of a batch per series: one fold over a list.
- Delivery.Agent.FlushBuffer: failing disk operations are not modelled.
- Buffer: directories and foreign files beside the payloads; a file's modification time is its name's time.
- Base32: upper-casing is a parameter that keeps the alphabet.
- ShapeText: escaping by `strconv.Quote`, which accepted names never need.
- SlowLog: rows returned and examined, the per-minute rate, the threshold on Redis averages, and truncation of texts.
- Probes themselves, and the health of endpoints (`nextHealth`): a one-branch fact.
