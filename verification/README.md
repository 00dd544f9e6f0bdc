# Coxpanel: a verified model

This project models the protocols at the heart of Coxpanel, a control panel for proxy nodes with an agent on each node,
and proves what they keep over whole runs.

* **Staged releases.** A topology is released over many nodes in three phases: prepare, apply and roll back.
  `ReleaseModel` gives each panel transaction as a function of its tables, `ReleaseStore` gives the same transactions as
  methods that update the tables row by row, and `ReleaseSystem` gives the runs: panel, agents, lost and repeated
  acknowledgements, time-outs, authorization and roster changes, and administrators. `ReleaseShape`, `ReleaseHistory`,
  `ReleaseRuns`, `ReleaseOrder`, `ReleaseBorders`, `ReleaseConfirmed`, `ReleaseRows` and `ReleaseProgress` hold in every run;
  `ReleaseAnswers` and `ReleaseEffects` say what each request does, by the tables before it.
  `ReleaseClimb`, `ReleaseSession`, `ReleaseDiscipline`, `ReleaseDisciplinedRuns`, `ReleaseTheorems`, `ReleaseGenerations`
  and `ReleaseCompletion` add the session assumption: an acknowledgement that arrives is the one its agent is sending now, or
  a retry of one that took effect before. `ReleaseWitness` and `ReleaseLate` hold the runs that mark the borders.
* **Traffic metering.** `TrafficSplit` spreads a delta over five-minute slots, `TrafficTables` and `TrafficMeter` ingest
  reports (as functions and as a class), `TrafficReports` says what a report adds to which rows, cursors and accounts,
  `TrafficLedger` proves conservation, `TrafficAccounts` that the recorded events explain the accounts, `TrafficDelivery`
  proves exactly-once delivery under crashes, `TrafficReadings` what the delivered reports tell, `TrafficRetention` and
  `TrafficEndToEnd` what is left of it after reports and cursors are cleaned up, and `TrafficRollup` and `TrafficIndex` prove that the aggregates agree with their rows.
* **Configuration replacement.** `ConfigFiles` models the four files and the child process of an agent. Every write is a
  step that may fail before or after it took effect, and the agent may die between any two.
* **Chains.** `DepthFirst`, `TopologyGraph`, `TopologyChains`, `TopologyValidate`, `TopologyOrder`, `TopologyPreview` and
  `TopologyPartial` model the validation of chains, their deployment order and the preview of one component.
* **Client configurations and the workspace.** `GeneratorNames`, `GeneratorTemplates` and `Generator` prove unique tags
  and closed references, and that rules and groups mean what the template says; `Workspace` and `WorkspaceRuns` prove the
  isolation of an apply in the prototype workspace, and `WorkspaceActions` what each of its actions does.

`dafny verify dfyconfig.toml` verifies the whole project.

## Findings

* A node's generation can go back (`backend/internal/repo/topology_release.go:387-418`). When the runtime material of a
  release changes twice, once while a node is applied and once more during the rollback, each acknowledgement moves all
  generations of the release on (lines 307-318), and the rollback then sets a node to its expected generation plus one,
  which is lower. `ReleaseGenerations.GenerationLoweredExactly` gives the exact guard, and
  `ReleaseWitness.GenerationCanGoBack` is a run in which it happens. Release steps alone never lower a generation
  (`ReleaseStepsNeverLower`). The agents are not misled: their stored generation never goes back, and what they are
  offered passes their fence.
* A release can have two active nodes (`backend/internal/repo/topology_release.go:428-454`). A rollback only unwinds nodes
  that run the candidate, so that resuming it while a switched-back node has not answered makes another node active.
  `ReleaseBorders.SecondActiveExactly` is the exact condition and `ReleaseWitness.TwoNodesCanBeActive` a run. The first
  answer of the two may end the rollback; `ReleaseConfirmed.RolledBackMeansConfirmed` says how to tell that the other node
  never confirmed.
* A node can be in two live releases without the session assumption (`backend/internal/repo/topology_release.go:280-332`
  and `434-454`). The panel accepts a report that a preparation failed from a node that is already prepared, even while the
  release is applying; the failed release then frees its nodes for another one, and can still be rolled back.
  `ReleaseBorders.SecondLiveExactly` is the exact condition and `ReleaseLate.TwoLiveReleases` a run.
* For the same reason a rolled-back release need not have restored every node that it switched
  (`backend/internal/repo/topology_release.go:280-332` and `428-454`): it can fail while a node is being switched back, another
  release can take the node, and rolling the first one back then only closes it. `ReleaseRows.RollbackRestoresExactly` is the
  exact condition and `ReleaseLate.RollbackCanLeaveARow` a run with one late acknowledgement. Under the session assumption
  the condition always holds (`ReleaseCompletion.RollbackCompletes`).
* A traffic report without samples can be accepted a second time after the clean-up of reports
  (`backend/internal/traffic/query.go:265` and `backend/internal/traffic/traffic.go:131-160`), if its request is repeated a
  week later; no bytes are counted twice. `TrafficEndToEnd.OnceExactly` is the exact condition and
  `TrafficEndToEnd.RelapseHappens` a run.
* Deployment is not always downstream first, although the comment at `backend/internal/topology/graph.go:128` promises it: a
  machine that relays on a short chain and is the entry of a long one takes the larger distance (lines 142-166).
  `TopologyOrder.DownstreamFirstExactly` is the exact condition and `TopologyWitness.NotAlwaysDownstreamFirst` an accepted
  graph that violates it.

## Model

| member | source | states |
|---|---|---|
| `ReleaseStore.Store.CreateTopologyRelease` | backend/internal/repo/topology_release.go:64-133 | Writes a release with all its nodes and generations, or changes no table and reports the first refusal: the guards on the nodes in the order of their identities, then the writes in the order of the preview |
| `ReleaseStore.Store.PendingDeployment` | backend/internal/repo/topology_release.go:237-244 | Finds the release that has work for the node now and none newer has, or finds none and no release has any |
| `ReleaseStore.Store.GetAgentDeployment` | backend/internal/repo/topology_release.go:187-227 | Hands out the document that the release recorded for the node, as long as its topology still renders to that version, and changes nothing then; a changed one is never handed out but stops the release and moves exactly this node's generation on |
| `ReleaseStore.Store.AcknowledgeAgentDeployment` | backend/internal/repo/topology_release.go:246-361 | Has exactly the effect of the specification on all tables and the history, with the same error; a transaction that fails half-way leaves the tables as they were |
| `ReleaseStore.Store.ActivateNext` | backend/internal/repo/topology_release.go:363-427 | Switches the first prepared node forward or the last pending one back, or ends the release |
| `ReleaseStore.Store.RollbackRelease` | backend/internal/repo/topology_release.go:434-454 | Starts or resumes a rollback of a failed or escalated release; refuses other releases and repeats nothing |
| `ReleaseStore.Store.RecoverReleases` | backend/internal/repo/topology_release.go:476-479 | Exactly the overdue running releases change: a preparation fails and any other goes to an administrator; none of them has work for an agent, and no row and no generation changes |
| `ReleaseStore.Store.InvalidateTopologyAuthorization` | backend/internal/repo/topology_authorization.go:8-19 | Every running release goes to an administrator and no agent has work; the generations of exactly the managed nodes move on by one, so that what they were given before is out of date |
| `DeploymentAgent.DeploymentAgent.HandlePendingDeployment` | agent/cmd/agent/deployment.go:63-118 | Answers exactly the bound documents that pass the state file's fence, with success exactly if the work and its saving succeeded; the state file names the work as soon as it was written, and its generation never goes back |
| `DeploymentAgent.AnswersAreLegal` | shared/contract/messages.go:185-215 | Every acknowledgement that an agent builds passes the validation of the panel, and fails exactly when the work or the saving of it failed |
| `ReleaseAnswers.CreatedExactly` | backend/internal/repo/topology_release.go:64-133 | A release is created exactly from a current preview whose candidates are known, capable, at the generation of the preview, rendered, listed once and in no release that is not over; it lists them in order to be prepared and moves exactly their generations on by one |
| `ReleaseAnswers.HandedOutIsRecorded` | backend/internal/repo/topology_release.go:187-227 | A document is handed out exactly for current work whose topology renders to the recorded version, with that version, and nothing changes |
| `ReleaseAnswers.ChangedIsStopped` | backend/internal/repo/topology_release.go:209-224 | If the topology of current work renders to another version, the answer is stale, the release stops and exactly this node's generation grows by one |
| `ReleaseAnswers.RefusedRequest` | backend/internal/repo/topology_release.go:187-227 | Any other request changes nothing and is answered by the first guard that fails |
| `ReleaseAnswers.HeldIsRecorded` | agent/cmd/agent/deployment.go:63-84 | In every run, a document that an agent newly holds has the version and the generation that the tables name for its node |
| `ReleaseAnswers.EffectIsRecorded` | backend/internal/repo/topology_release.go:246-318 | An acknowledgement takes effect only if it is legal, about current work at the current generation and the recorded version, and the topology still renders to it |
| `ReleaseAnswers.ChangedAckIsStopped` | backend/internal/repo/topology_release.go:304-318 | An acknowledgement of changed work is stale: the release stops and the generations of exactly its nodes grow by one |
| `ReleaseAnswers.CurrentAckCounts` | backend/internal/repo/topology_release.go:319-361 | An acknowledgement of current, unchanged work takes effect unless the next node cannot be switched, and then nothing changes |
| `ReleaseEffects.AcknowledgementDoes` | backend/internal/repo/topology_release.go:319-427 | What an effective acknowledgement does to all tables: a failed preparation ends the release, a failed application sends every node that runs its candidate back, a failed way back stops it; else the first prepared node is switched to its unchanged candidate, or the last pending one back one generation on, or the release is over |
| `ReleaseEffects.RepetitionIsAccepted` | backend/internal/repo/topology_release.go:267-287 | A repetition, or a success of an earlier phase that arrives late, is accepted and changes nothing |
| `ReleaseEffects.RollbackDoes` | backend/internal/repo/topology_release.go:434-454 | An administrator's rollback sends back exactly a failed or escalated release, from its last node that runs its candidate; it repeats nothing and refuses every other release without a change |
| `ReleaseProgress.NeverStuck` | backend/internal/repo/topology_release.go:319-433 | In every run a release with nodes is under way if and only if it has work on offer for one of its nodes |
| `ReleaseOrder.SwitchesAreLicensed` | backend/internal/repo/topology_release.go:344-427 | In every run, a node switches to its candidate only after all nodes acknowledged prepared and all earlier nodes acknowledged applied |
| `ReleaseOrder.SuccessMeansApplied` | backend/internal/repo/topology_release.go:363-379 | A release that succeeded has an applied acknowledgement of every node, switched every node once and switched none back |
| `ReleaseConfirmed.RolledBackMeansConfirmed` | backend/internal/repo/topology_release.go:363-379 | In every run, all nodes that a rolled-back release had switched have acknowledged it if and only if the tables show none of them active or failed |
| `ReleaseRuns.RollbackReversesApply` | backend/internal/repo/topology_release.go:363-433 | In every run the nodes switched back are the last ones switched, newest first; a rolled-back release has reversed its apply order exactly |
| `ReleaseRows.RowIsLastSwitch` | backend/internal/repo/topology_release.go:387-427 | In every run the row of a node is the one its last switch wrote: the candidate after a switch forward and the restored topology after a switch back, in the name and generation of that release; a node never switched has its first row |
| `ReleaseRows.RowOfEndedRelease` | backend/internal/repo/topology_release.go:363-433 | In every run the row of a switched node names the release exactly while no other release has switched the node since, and then holds the restored topology if the release was rolled back and the candidate if it succeeded |
| `ReleaseRows.RollbackRestoresExactly` | backend/internal/repo/topology_release.go:363-454 | At the step at which a release becomes rolled back, in every run, a node it had switched is restored by it if and only if the tables before the step show the node's row as the release's own |
| `ReleaseLate.RollbackCanLeaveARow` | backend/internal/repo/topology_release.go:280-332 | A run with a single late acknowledgement, which its agent did send, at whose last step a release becomes rolled back while a node it had switched keeps another release's candidate |
| `ReleaseRows.RowsChangeOnlyBySwitches` | backend/internal/repo/topology_release.go:411-427 | No step changes a deployment row except a recorded switch of that node, to the candidate or the restored topology that the switch stands for, with its release and generation |
| `ReleaseTheorems.NodeInOneLiveRelease` | backend/internal/repo/topology_release.go:85-100 | Under the session assumption, no node is in two live releases; only the newest release of a node can be live |
| `ReleaseTheorems.FailedNeverActivated` | backend/internal/repo/topology_release.go:330-332 | Under the session assumption, a failed release has activated nobody, so that rolling it back only closes it |
| `ReleaseTheorems.RollbackRestores` | backend/internal/repo/topology_release.go:363-433 | Under the session assumption, after a rollback every switched node keeps its previous topology, or the empty direct one, until a newer release takes the node (`ReleaseRows.RowOfEndedRelease` holds without the assumption) |
| `ReleaseCompletion.RollbackCompletes` | backend/internal/repo/topology_release.go:363-454 | Under the session assumption the exact condition of `ReleaseRows.RollbackRestoresExactly` always holds: at the step at which a release becomes rolled back each node it had switched has its row restored by this release |
| `ReleaseTheorems.SuccessDeploys` | backend/internal/repo/topology_release.go:363-426 | Under the session assumption, a successful release leaves each of its nodes on its candidate until a newer release takes the node |
| `ReleaseTheorems.ReplayChangesNothing` | backend/internal/repo/topology_release.go:267-287 | Under the session assumption, an acknowledgement that took effect once changes nothing when it arrives again, at any later state |
| `ReleaseTheorems.AtMostThreeAcksPerNode` | backend/internal/repo/topology_release.go:319-361 | Under the session assumption, a release of k nodes takes at most 3k acknowledgements that have an effect |
| `ReleaseCompletion.AcknowledgementsClimb` | backend/internal/repo/topology_release.go:319-361 | Under the session assumption, every effective acknowledgement moves its node strictly up one ladder of statuses and moves no node of any release down |
| `ReleaseTheorems.LiveReleaseInStep` | backend/internal/repo/topology_release.go:85-127 | Under the session assumption, a live release that was never escalated expects exactly the generations that its nodes have |
| `ReleaseTheorems.GenerationsNeverReused` | backend/internal/repo/topology_release.go:94-127 | Under the session assumption, the generations that a release hands to a node lie strictly below those of every later release of the node |
| `ReleaseTheorems.OffersPassTheFence` | agent/cmd/agent/deployment.go:63-84 | Under the session assumption, the panel never offers an agent work that the agent's own generation fence would ignore |
| `ReleaseTheorems.StoredNeverGoesBack` | agent/cmd/agent/deployment.go:63-101 | Over every run the generation in an agent's state file never goes back |
| `ReleaseGenerations.GenerationLoweredExactly` | backend/internal/repo/topology_release.go:387-418 | Under the session assumption, a step lowers a node's generation if and only if it resumes an escalated release, or is a fully admitted answer of a node that was switched back, and the next node to switch back is this one, renders, and is more than one generation ahead |
| `ReleaseGenerations.GenerationsNeverGoBack` | backend/internal/repo/topology_release.go:307-318 | Under the session assumption, no generation goes back without authorization changes as long as the runtime material of no release changed twice |
| `ReleaseGenerations.ReleaseStepsNeverLower` | backend/internal/repo/topology_release.go:387-418 | Under the session assumption, over any run without authorization and roster changes no generation ever goes back |
| `ReleaseWitness.GenerationCanGoBack` | backend/internal/repo/topology_release.go:307-318 | A disciplined run without authorization changes in which the generation of a node goes from 3 back to 2 |
| `ReleaseBorders.SecondActiveExactly` | backend/internal/repo/topology_release.go:428-454 | In every run, a step takes a release from at most one active node to more if and only if an administrator resumes it while a switched-back node is still active and the last standing node's previous topology renders |
| `ReleaseBorders.OneActiveExactly` | backend/internal/repo/topology_release.go:428-454 | Every release has at most one active node all through a run if and only if no administrator resumes such a release in it |
| `ReleaseWitness.TwoNodesCanBeActive` | backend/internal/repo/topology_release.go:428-433 | A disciplined run with two resumed rollbacks after which two nodes of a release are active |
| `ReleaseBorders.SecondLiveExactly` | backend/internal/repo/topology_release.go:434-454 | In every run, a step first puts a node into two live releases if and only if an administrator rolls back a failed release that has a standing node whose previous topology renders and that shares a node with a live release |
| `ReleaseBorders.OneLiveExactly` | backend/internal/repo/topology_release.go:85-100 | No node is in two live releases all through a run if and only if no administrator rolls back such a release in it |
| `ReleaseLate.TwoLiveReleases` | backend/internal/repo/topology_release.go:267-332 | A run with a single late acknowledgement, which its agent did send, that puts one node into two live releases |
| `TrafficSplit.Add` | backend/internal/traffic/traffic.go:53-58 | Adds two counters exactly when both are non-negative and the sum fits a signed 64-bit integer |
| `TrafficSplit.SplitDelta` | backend/internal/traffic/traffic.go:60-88 | The loop yields the buckets of the specification, or the same refusal |
| `TrafficSplit.SplitIsContiguous` | backend/internal/traffic/traffic.go:60-88 | Consecutive slots aligned to five minutes, at most 289, from the slot of the start to the slot of the end |
| `TrafficSplit.SplitConserves` | backend/internal/traffic/traffic.go:60-88 | All shares are non-negative and sum to the input in both directions |
| `TrafficSplit.SplitIsProportional` | backend/internal/traffic/traffic.go:71-86 | Every share but the last is the rounded-down proportion, and the last exceeds its own by less than the number of slots |
| `TrafficMeter.Validate` | backend/internal/traffic/traffic.go:90-102 | The check with its set of seen series accepts exactly the legal reports |
| `TrafficPayload.SortedSorts` | backend/internal/traffic/traffic.go:104-109 | Sorting keeps all samples and orders them by inbound and user |
| `TrafficPayload.PayloadIgnoresOrder` | backend/internal/traffic/traffic.go:104-122 | Reports that differ in the order of their samples have one payload, and so count as repetitions |
| `TrafficMeter.Meter.Ingest` | backend/internal/traffic/traffic.go:113-253 | One transaction with the outcome that `TrafficReports.ReportIsCounted` reads from the tables before it; a failure at any sample leaves no trace |
| `TrafficReports.ReportIsCounted` | backend/internal/traffic/traffic.go:113-253 | From the tables before: a report is accepted as new exactly if it is legal, not on record, next in its epoch or the first of a new one, permitted, and every row and account has room; then each row of each of its series, of users and of inbounds, grows by exactly its slot's share of the counter's growth since the series' last sample, the cursors move to the report, each user is credited the growth of its series, and nothing else changes. A repetition and a refusal change nothing |
| `TrafficMeter.Meter.Write` | backend/internal/traffic/traffic.go:255-275 | A row grows by the bucket unless it would overflow, and the rollups of its hour and its day become due |
| `TrafficMeter.Meter.Reset` | backend/internal/traffic/quota.go:44-70 | Succeeds exactly for a known user at the expected quota epoch with a reason of legal length; then the usage is in a snapshot, the next quota epoch is open, and lifetime and limit are as before |
| `TrafficMeter.Meter.SetQuota` | backend/internal/traffic/quota.go:10-43 | Succeeds exactly for a legal limit and a known user at the expected revision; then the user has this limit and the next revision, the change is recorded, and no account has changed |
| `TrafficAccounts.EventsExplainAccounts` | backend/internal/traffic/quota.go:10-70 | Over every run, a user's limit is what its last event left, its revision counts the changes of the limit and its quota epoch the resets, and each event was recorded with the limit and the epoch that the earlier ones had left |
| `TrafficMeter.Meter.Rollup` | backend/internal/traffic/query.go:222-261 | Processes up to a hundred due jobs in the order of period and grain; what it leaves are the sums of their periods, and it stops early only when no job is due |
| `TrafficMeter.Meter.SumRows` | backend/internal/traffic/query.go:242-250 | The grouped sum over the rows of a period |
| `TrafficMeter.Meter.Cleanup` | backend/internal/traffic/query.go:263-278 | Keeps exactly the rows of the last thirty days and those whose hour or day a due job names, and exactly the hourly sums of 180 and the daily sums of 730 days |
| `TrafficMeter.RollupIsSteps` | backend/internal/traffic/query.go:222-261 | One job of the loop is a rollup of the step system without interruption |
| `TrafficLedger.LifetimeIsConserved` | backend/internal/traffic/traffic.go:173-240 | Over every sequence of reports, resets and quota changes a user's lifetime equals the sum of the rows, the growth of the counters, and usage plus reset snapshots, and stays within 63 bits |
| `TrafficLedger.SeriesAreConserved` | backend/internal/traffic/traffic.go:173-253 | Over every such sequence, for every node and every series of a user or an inbound, the rows sum up to what the series' counters have grown by since they were first seen |
| `TrafficDelivery.TrafficAgent.CollectTraffic` | agent/cmd/agent/traffic.go:53-126 | Which reports one round sends and which state file it leaves, for every outcome of its requests and writes; `TrafficReadings.ReportsTellReadings` says what those reports contain |
| `TrafficReadings.ReportsTellReadings` | agent/cmd/agent/traffic.go:92-117 | In every run, each report has the samples and the time of its reading; it goes on in the epoch of the report before, one sequence further and from where that ended, exactly if neither the uptime nor a counter went back and the uptime kept up with the clock, and else starts a fresh epoch at sequence one, one second long and incomplete; the state file holds exactly the last reading |
| `TrafficDelivery.RoundIsSteps` | agent/cmd/agent/traffic.go:53-126 | One round of the agent, whatever happens to its requests and writes, is a run of the delivery system that leaves the same state file |
| `TrafficDelivery.Regressed` | agent/cmd/agent/traffic.go:94-98 | The loop over the counters finds whether one of them went back |
| `TrafficDelivery.DeliveredExactlyOnce` | agent/cmd/agent/traffic.go:77-124 | With crashes, lost replies, failed writes and repeated requests anywhere, the panel has accepted all generated reports in order and once, except perhaps the last while it is pending |
| `TrafficDelivery.SequencesAgree` | backend/internal/traffic/traffic.go:131-170 | Once the panel knows the epoch, its last sequence is the agent's, or one less exactly while a pending report is unaccepted |
| `TrafficDelivery.RepeatsChangeNothing` | backend/internal/traffic/traffic.go:131-141 | A repeated report changes no table |
| `TrafficRetention.AcceptedAgainExactly` | backend/internal/traffic/traffic.go:131-170 | In every run with clean-ups of reports and cursors, an accepted report is accepted as new again if and only if it has no samples, is legal by age, is no longer noted and is in order; then the agent's clock was ahead |
| `TrafficEndToEnd.OnceExactly` | agent/cmd/agent/traffic.go:53-124 | With crashes, lost replies, repeated requests and both clean-ups anywhere, delivery is exactly once all through a run if and only if no old request for a sample-less first report of a forgotten epoch arrives again |
| `TrafficEndToEnd.SampledOnce` | agent/cmd/agent/traffic.go:53-124 | If every reading of the agent has samples, delivery is exactly once in every run with clean-ups |
| `TrafficEndToEnd.RelapseHappens` | backend/internal/traffic/traffic.go:131-170 | A run in which a week-old repeated request is accepted a second time |
| `TrafficDelivery.IngestCases` | backend/internal/traffic/traffic.go:131-170 | A report is refused or repeated without any effect, or it is noted and becomes the last one of its node |
| `TrafficRollup.IngestTouches` | backend/internal/traffic/traffic.go:90-93 | An accepted report writes no row older than eight days and one slot, and makes the hour and the day of every changed row due |
| `TrafficIndex.AggregatesAgree` | backend/internal/traffic/query.go:222-268 | In every run, with reports between the parts of a rollup and after retention, the aggregate of a period without a due job is the sum of all bytes ever written there |
| `TrafficIndex.DuePeriodsAreIntact` | backend/internal/traffic/query.go:263-268 | While a job is due, no row of its period has been deleted |
| `ConfigFiles.ReadLastGood` | agent/cmd/agent/main.go:644-725 | Finds exactly the accepted configuration of this node that the state file holds with its hash, or without a state file the other three files; nothing is found to be absent but a missing state file with files missing |
| `ConfigFiles.Agent.ApplyConfig` | agent/cmd/agent/main.go:153-223 | The files of every step read as the old configuration or the new one; success installs the new one and makes the report true again, undisturbed failure leaves the old one, and a running process runs what is reported. A legal configuration runs unless something outside the agent fails; after one failure the old one runs again, and after a failed start it is always tried |
| `ConfigFiles.Agent.RestorePrevious` | agent/cmd/agent/main.go:619-643 | Every step of a restore reads as old or new, and a complete restore reads as the old configuration |
| `ConfigFiles.Agent.Rollback` | agent/cmd/agent/main.go:192-201 | A rollback that is not stuck brings the old configuration back and tries to start it, and it runs unless something fails |
| `ConfigFiles.Agent.EnsureLastGoodRunning` | agent/cmd/agent/main.go:225-251 | No step changes what the files say, a process it starts runs what is reported, and a stored configuration runs unless something fails |
| `ConfigFiles.Agent.StopCore` | agent/cmd/agent/main.go:535-564 | A process that was stopped has exited and is no longer owned |
| `ConfigFiles.Agent.ReportedVersion` | agent/cmd/agent/main.go:814-819 | Reports the applied version exactly while the owned process runs |
| `ConfigFiles.Agent.Run` | agent/cmd/agent/main.go:89-118 | One poll keeps all of this, whatever the panel answers; unless something fails, a process runs after it, with a new legal configuration if there is one |
| `ConfigFiles.Agent.Live` | agent/cmd/agent/main.go:63-118 | Over any sequence of polls, deployments, crashes of the agent at any step and exits of the process, the files read as the first configuration or a legal document, and a running process runs the reported version unless a restore or a signal has failed since the last start or successful apply |
| `ConfigFiles.OneMore` | agent/cmd/agent/main.go:153-223 | Every state of the files in an operation that reads as old or new stays among the first configuration and the legal documents seen so far |
| `DepthFirst.IsAcyclic` | backend/internal/topology/graph.go:283-316 | The three-colour search succeeds exactly on the graphs without a cycle |
| `DepthFirst.Search.Visit` | backend/internal/topology/graph.go:285-303 | A visit finishes its vertex after all its successors, or there is a cycle |
| `TopologyGraph.ValidateStructure` | backend/internal/topology/graph.go:183-261 | Succeeds exactly on the well-formed graphs, with the index of their vertices and edges |
| `TopologyGraph.Branches` | backend/internal/topology/graph.go:248-259 | No source has two edges and no relay two incoming ones, exactly when no list of the index that matters is longer than one |
| `TopologyValidate.DetectCycle` | backend/internal/topology/graph.go:283-316 | Accepts exactly the graphs without a cycle |
| `TopologyValidate.DetectPhysicalReentry` | backend/internal/topology/graph.go:318-344 | Accepts exactly the graphs in which no walk comes back to a physical node |
| `TopologyValidate.RequireLandingPath` | backend/internal/topology/graph.go:346-371 | Accepts exactly the inbounds whose walk is at a landing within 8 inbounds, and collects exactly that walk |
| `TopologyValidate.SummarizeDraft` | backend/internal/topology/graph.go:401-434 | Counts the chain entries and finds the depth of the deepest walk |
| `TopologyValidate.ValidateDraftGraph` | backend/internal/topology/graph.go:72-86 | Accepts exactly the well-formed graphs without physical re-entry |
| `TopologyValidate.ValidateGraph` | backend/internal/topology/graph.go:88-128 | Accepts exactly the valid graphs, lists exactly the inbounds and machines that take part, and reports a depth of at most 8 |
| `TopologyChains.ReentryRejectsCycles` | backend/internal/topology/graph.go:318-344 | A graph without physical re-entry has no cycle |
| `TopologyChains.RelayOnOneChain` | backend/internal/topology/graph.go:97-115 | In an accepted graph every relay lies on the chain of exactly one entry, at one place |
| `TopologyChains.ChainsMeetAtLandings` | backend/internal/topology/graph.go:239-259 | Chains of different entries meet at a landing if at all |
| `TopologyChains.ReachedFromEntry` | backend/internal/topology/graph.go:97-115 | In an accepted graph every participating inbound is reached from some entry |
| `TopologyChains.WalksAreShort` | backend/internal/topology/graph.go:346-371 | In a complete graph no walk has more than seven hops |
| `TopologyOrder.DeploymentOrder` | backend/internal/topology/graph.go:130-181 | Lists exactly the participating machines, sorted by their largest distance to a landing and then by identity; each distance is proved to be that maximum |
| `TopologyOrder.ListedOnce` | backend/internal/topology/graph.go:167-181 | Every participating machine is listed once |
| `TopologyOrder.DownstreamFirst` | backend/internal/topology/graph.go:130-181 | When the target of a hop attains the distance of its own machine, that machine is deployed before the machine of the source |
| `TopologyOrder.EarlierExactly` | backend/internal/topology/graph.go:130-181 | Of two listed machines the first is deployed earlier if and only if its largest distance to a landing is smaller, or the same and its identity is smaller |
| `TopologyOrder.DownstreamFirstExactly` | backend/internal/topology/graph.go:130-181 | The order of an accepted graph is downstream first for every hop if and only if every hop of the graph goes to a machine of smaller largest distance, or of the same and smaller identity |
| `TopologyWitness.NotAlwaysDownstreamFirst` | backend/internal/topology/graph.go:142-166 | In every order of one accepted graph, a hop goes downstream to a machine that is deployed later |
| `TopologyWitness.CrossingValid` | backend/internal/topology/graph.go:88-128 | The graph of that example is one that may be published |
| `TopologyPreview.Select` | backend/internal/topology/control.go:82-98 | The fixpoint ends at exactly the machines connected with the root by edges in either direction |
| `TopologyPreview.BuildPartial` | backend/internal/topology/control.go:99-109 | Keeps the machines of the component, and the edges by their target |
| `TopologyPartial.KeepsComponentEdges` | backend/internal/topology/control.go:99-109 | With every edge filed under its source's machine, keeping edges by target keeps exactly the edges within the component |
| `TopologyPartial.PartIsValid` | backend/internal/topology/control.go:110-112 | If the whole graph may be published, so may its part on the component |
| `TopologyPartial.PreviewChain` | backend/internal/topology/control.go:72-137 | Numbers every machine of the component once, from zero, and succeeds exactly when the part may be published; of two machines with chains the one of smaller largest distance is applied first, or of the same and smaller identity; machines without chains come after them as in the graph; and a hop is applied downstream first exactly if it descends |
| `GeneratorNames.UniqueProxyName` | backend/internal/generator/p2.go:934-951 | Ends, and gives the first of the candidate names that is not in use, after at most as many attempts as there are names in use |
| `GeneratorNames.CandidatesDiffer` | backend/internal/generator/p2.go:943-949 | No candidate name is tried twice, because decimal suffixes differ |
| `GeneratorNames.BaseTellsApart` | backend/internal/generator/p2.go:943-944 | The second candidate tells a proxy from every other proxy of its name |
| `GeneratorNames.CutFits` | backend/internal/generator/p2.go:935-940 | A shortened name is the longest prefix of whole characters within 104 bytes |
| `GeneratorTemplates.ValidateGroups` | backend/internal/generator/p2.go:269-340 | Accepts exactly the groups with unique legal identities, members that exist, and no cycle of references |
| `GeneratorTemplates.ValidateRules` | backend/internal/generator/p2.go:342-380 | Accepts exactly the rules with legal values, known targets and at most one final match |
| `Generator.RenderItems` | backend/internal/generator/p2.go:762-790 | One item for every included proxy in order, under the first of its candidate names that is neither reserved nor taken by an earlier item |
| `Generator.Members` | backend/internal/generator/p2.go:1024-1054 | A group lists exactly what its entries stand for, in order, or connects directly |
| `Generator.ListingConcat` | backend/internal/generator/p2.go:1024-1054 | What entries stand for is listed in the order of the entries |
| `Generator.OrderIsKept` | backend/internal/generator/p2.go:762-790 | The client gets the included proxies, in the order of all proxies |
| `Generator.UsableOrderIsKept` | backend/internal/generator/p2.go:532-545 | A group gets the proxies without a group and its own, in their order |
| `Generator.TagsAreDistinct` | backend/internal/generator/p2.go:610-661 | All tags of a document differ if and only if the subscription is not named like the direct outbound, or groups replace it |
| `Generator.ReferencesAreClosed` | backend/internal/generator/p2.go:626-693 | Every member, rule target and the final tag name an outbound of the document or a built-in one |
| `Generator.GroupsAreAcyclic` | backend/internal/generator/p2.go:310-340 | The groups of a document refer to one another in no cycle |
| `Generator.GenerateSingBox` | backend/internal/generator/p2.go:598-700 | For every accepted template and any proxies the document is closed; its tags differ exactly when the template has groups or the subscription is not named like the direct outbound, and then its groups refer to one another in no cycle. Its rules are the template's in order: one rejects exactly for REJECT, connects directly exactly for DIRECT, and else goes to the group named; what is left goes to the first group, or to the subscription without groups. Proxies and groups list what the template says, in order |
| `Generator.GenerateMihomoWithTemplate` | backend/internal/generator/p2.go:515-588 | The document is closed with distinct tags; its groups are acyclic whenever the template has groups or the subscription is not named like the direct target, and no tag hides a built-in target unless the subscription is named like one. Its rules are the template's in order, or one that sends everything to the first group: one rejects exactly for REJECT, connects directly exactly for DIRECT, and else goes to the group named. Proxies and groups list what the template says, in order |
| `Workspace.ChainReadiness` | frontend/src/prototype/model.ts:359-379 | The loop with its set of seen inbounds accepts exactly the chains that may be applied |
| `Workspace.DefaultPort` | frontend/src/prototype/model.ts:279-281 | Finds the first free port from 443 on |
| `WorkspaceRuns.ReduceCoherent` | frontend/src/prototype/WorkspaceProvider.tsx:58-150 | Every action keeps unique identities, separate ports, the meaning of a clean chain and the confirmation of a running operation; `WorkspaceActions.EveryActionDone` says what each action does |
| `WorkspaceActions.EveryActionDone` | frontend/src/prototype/WorkspaceProvider.tsx:58-150 | In every run every action does what it is for and nothing else: an edit changes exactly its chain (a move exchanges two hops, a removal takes one out, a saved inbound is shared by its chains), an apply is accepted exactly for chains that can be served, its steps mark exactly its chains, and its last step publishes exactly their inbounds and snapshots or marks them failed; and every hop knows its place unless a chain was added with a snapshot out of order |
| `WorkspaceActions.ApplyRuns` | frontend/src/prototype/WorkspaceProvider.tsx:129-147 | From every coherent state, starting an accepted apply and advancing it twice publishes exactly its chains and the inbounds they use, or fails and publishes nothing |
| `WorkspaceActions.ReadyExactly` | frontend/src/prototype/model.ts:359-379 | A chain is ready exactly if it has a name, hops and a direct exit, and every hop is saved, in place and has an inbound of its server that can be served, none twice |
| `WorkspaceActions.AppliedIsServable` | frontend/src/prototype/WorkspaceProvider.tsx:42-56 | In every run, a chain that is being applied can be served, and a changed inbound that it uses is used by applied chains only |
| `WorkspaceRuns.PortsNeverShared` | frontend/src/prototype/model.ts:273-276 | In every run two inbounds of one server never share a draft or published port |
| `WorkspaceRuns.CleanChainsArePublished` | frontend/src/prototype/WorkspaceProvider.tsx:125-147 | In every run a clean chain equals its published snapshot, and all its inbounds are published as drafted |
| `WorkspaceRuns.ApplyIsIsolated` | frontend/src/prototype/WorkspaceProvider.tsx:42-56 | In every run an apply changes no inbound that a chain outside the applied ones refers to |
| `WorkspaceRuns.OnlyAppliesPublish` | frontend/src/prototype/WorkspaceProvider.tsx:96-147 | Nothing but the last step of a successful apply, and a reset, changes what is published of an inbound: no other progress, failure, edit or revert does |
| `WorkspaceRuns.OnlyAppliesSnapshot` | frontend/src/prototype/WorkspaceProvider.tsx:58-147 | Nothing but the last step of a successful apply, and a reset, changes the snapshot of a chain or removes a chain that has one |

## Left out

- HTTP, SQL text, isolation levels, JSON and YAML encoding, authentication, sealing and hashing: a transaction is one step, sealing is the identity and a hash identifies its content.
- `GetAgentDeployment` updates two tables outside a transaction; it is one step here.
- Preview identities, expiry and revisions are the one parameter `current`; a preview that listed a node twice would be refused by the database's key, which is a conflict here.
- Attempt counters, error codes, time stamps, tokens, and the pruning of old releases; a release that is overdue is a parameter of the recovery.
- The apply order of a node is its position in the release; the rendering of runtime documents is a table from topologies to versions that roster changes replace, except for the empty topologies, which have no inbound for a credential.
- The older path that deploys a single node without a release.
- ReleaseGenerations.GenerationsNeverGoBack: the condition counts changes of runtime material per release, and authorization changes are excluded, because they move every generation.
- Time stamps keep full precision; the formats of epochs and schema versions, the quality flags (gap, estimated, stale) and the freshness of a node are not modelled.
- TrafficLedger.LifetimeIsConserved: it speaks of the time before rows and cursors are cleaned up; after that the three sums no longer cover what was deleted. Retries and delivery after the clean-up of reports and cursors are covered by `TrafficRetention` and `TrafficEndToEnd`, where the clean-up is a function and not part of the class.
- TrafficIndex.AggregatesAgree: hours and days are truncated in UTC, as in a database session in that zone, and one rollup is under way at a time.
- The parsing of core statistics and the accuracy of the restart heuristic; the next unused epoch is a parameter, as a random identifier that was never used.
- Liveness: a panel that keeps refusing a report keeps the agent from collecting.
- Process supervision, listener probes and timing: a start succeeds or fails, and a process runs or has exited; a crash keeps what the file system was told, as after the death of the process and not of the machine.
- ConfigFiles.ReadLastGood: a file that cannot be read counts as broken, and hashes compare exactly, not without regard to case.
- Which error a rejected graph or template reports, where the source iterates over a map.
- The rendering of configurations for a server, capabilities of agents in the preview, and everything in a candidate but its node and order.
- The settings of a proxy in client configurations, the defaults and variables of templates, DNS sections, the types of groups with their probe URLs, and display order: proxies come in order, and each renders, is omitted or is unsupported; invalid UTF-8 in names does not occur.
- The server form of the workspace, which changes only tags and traffic limits, and the field checks of a protocol, which are one flag of a configuration; blank names are those of blanks, tabs and line ends.
- React components, mail, alerts, subscriptions, users, and pagination, which would add only easy members.
