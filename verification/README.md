# Proofs about the SEO agent runtime

A Dafny model of the parts of the repository that keep state or transform data, with proofs of what they promise over
all inputs and all runs. `dafny verify dfyconfig.toml` checks the project.

- **The workflow engine.** A route becomes a dependency graph, which is checked by memoised depth-first search and split
  into levels (`WorkflowGraph.dfy`, `GraphBuilder.dfy`). `WorkflowEngine.dfy` gives one run as a step relation: each
  action is one stretch that the event loop executes without suspension, agents of a level interleave freely, and answers,
  clock readings and cost quotes are arbitrary. `WorkflowInvariants.dfy` and `WorkflowTheorems.dfy` prove what holds in
  every reachable state and at the end of every run; `EchoRuns.dfy` does so for the offline provider, `BudgetedRuns.dfy`
  for the shared budget, `GovernanceGap.dfy` builds a complete run on any graph, and `BuilderRuns.dfy` says what all this
  means for the graphs the builders make. `WorkflowRunner.dfy` is the same run as an object with live handoffs and updates
  in place, each method shown to be the step it implements; `StructuredOutput.dfy` is one agent's correction loop, and
  `OutputRules.dfy` what an output must meet beyond the schema.
- **Handoff governance.** Acknowledgement, sealing and the final audit, on values (`HandoffGovernance.dfy`,
  `HandoffReconciliation.dfy`) and in place on live objects (`Handoffs.dfy`, `HandoffAudit.dfy`).
- **Finding reconciliation.** The registry as it runs (`FindingRegistry.dfy`), the same outcome as a rule over the
  multiset of findings that knows no order (`FindingRules.dfy`), the reported conflicts up to order
  (`FindingConflicts.dfy`), and the decisions built on it (`FindingDecisions.dfy`).
- **The evidence store.** Recursive drift as a patch over JSON Pointers (`EvidenceDrift.dfy`, `JsonPointers.dfy`,
  `DriftPatches.dfy`, `DriftPointers.dfy`), retention (`EvidenceRows.dfy`, `EvidenceStore.dfy`), digests and their
  migration (`EvidenceIntegrity.dfy`, `EvidenceMigrations.dfy`).
- **Publication.** The irreversible publish sequence against an adversarial provider, as a property of its trace of
  requests (`PublicationTraces.dfy`, `Publication.dfy`), time-only proofs shared by nested collectors
  (`TemporalProofs.dfy`), the worklist over content-addressed evidence (`ReachableEvidence.dfy`) and the phase-closure
  transition check (`PhaseClosure.dfy`).
- **Two smaller cores.** Key redaction that loses no entry (`KeyRedaction.dfy`) and the producer and validator of
  search-result assessments (`SerpEvidence.dfy`, `SerpDisagreements.dfy`).

Four promises that the code does not keep, each with its exact condition over what a caller can see and with a concrete
input that fails:

- A run can be COMPLETE while its governance verdict is FAIL. The runner answers for an output with an empty `output_id` by
  its agent name, and the audit compares with the empty id; the agent-output schema sets no least length, and the default
  is only set for a missing id. COMPLETE implies PASS exactly when every receiving output has a nonempty `output_id`
  (`WorkflowTheorems.CompleteRunGovernance`). Wherever COMPLETE can be reached and something
  is handed over, such a run exists (`GovernanceGap.CompleteUpToNames`), and a request that matches no keyword is a
  concrete one (`BuilderRuns.CompleteWithoutGovernance`).
- A risk escalated in a workflow without a scrummaster node is addressed to nobody, so governance fails in every such run.
  That is so exactly when the lead is another agent, the workflow is not the full audit, the routing confidence is not Low
  and the scrummaster is no supporting agent (`BuilderRuns.RiskTargetExactly`, `BuilderRuns.UnreceivedRiskFails`); a
  conversion request without a domain is a concrete one (`BuilderRuns.ConversionRequestFails`).
- Drift reports a changed root that is not a pair of objects at `/`, which RFC 6901 reads as the member with the empty
  name; stored payloads are always objects, so comparisons are not affected (`DriftPointers.DriftAppliesExactly`,
  `DriftPointers.RootIsMisplaced`).
- An OK search assessment is not always accepted by the validator: the producer does not ask for a scheme in URLs, for
  URLs to be text, for capture fields that are text (a number counts as recorded) and more than blanks, for a capture date
  that parses beyond its first ten characters, or for dates that are not in the future. `SerpEvidence.AssessedIsValidExactly`
  is the exact condition on rows, capture and dates, for validation on a later day too (`SerpEvidence.AssessedIsValidLater`),
  `SerpEvidence.GoodInputsAccepted` the positive promise, and `SerpDisagreements` has one input for each cause.

Assumptions are parameters or hypotheses of the statements that need them: digests are arbitrary functions (nonempty where
a receipt or a stored hash must be present; no statement needs them to be collision-free), JSON decoding undoes encoding,
and provider answers, clocks, quotes and agent answers are arbitrary.

## Model

| member | source | states |
|---|---|---|
| `WorkflowGraphs.Levels` | runtime/workflow_graph.py:98-116 | Of nodes with one id the last counts. Rejects exactly the graphs with a dependency cycle or an unknown dependency; otherwise level `k` holds exactly the nodes whose longest dependency chain visits `k + 1` nodes, each level sorted by id. |
| `WorkflowGraphs.DepthSearch.Depth` | runtime/workflow_graph.py:73-85 | The memoised search fails only by meeting the path it is on, which closes a cycle; otherwise it returns the length of the longest chain ending in the node and keeps every memoised depth. |
| `WorkflowGraphs.ValidateDepth` | runtime/workflow_graph.py:68-88 | Raises the cycle error exactly on cyclic graphs; otherwise the depth is that of the longest chain, and it is refused exactly when above the limit. |
| `WorkflowGraphs.ValidateNodes` | runtime/workflow_graph.py:42-66 | Passes exactly when the list is nonempty and within the limit, ids are unique, the deliverable exists and every dependency is another known node. |
| `WorkflowGraphs.Validate` | runtime/workflow_graph.py:37-96 | Accepts exactly the well-formed acyclic graphs with a terminal deliverable within both limits, and reports a cycle exactly for a graph that passes the node checks and has one. |
| `WorkflowGraphs.RankIsLongestChain` | runtime/workflow_graph.py:73-85 | Any ranking that puts each node one above its highest dependency is the length of its longest chain, and no other number is. |
| `WorkflowGraphs.StuckHasCycle` | runtime/workflow_graph.py:106-111 | A nonempty set of nodes that all wait for members of the set contains a cycle: why an empty round of `levels` may raise. |
| `WorkflowGraphs.LevelCountIsDepth` | runtime/workflow_graph.py:86-116 | The number of levels equals the depth that validation computes. |
| `GraphBuilder.BuilderGraphsAreValid` | runtime/workflow_graph.py:177-300 | Every graph the builders produce, for any route and business type, is well formed within 12 nodes and depth 5. |
| `WorkflowInvariants.StepKinds` | runtime/workflow_runner.py:80-153 | Every action of every agent is one of five changes to one node, or the barrier between levels. |
| `WorkflowInvariants.InvariantAlways` | runtime/workflow_runner.py:80-153 | Every state that any interleaving and any answers can reach has agreeing phases, states, outputs and events, inputs stored before start, handoffs booked from starts, sealed terminal handoffs, counters within limits and levels run in order. |
| `WorkflowTheorems.StartsOnlyWhenFed` | runtime/workflow_runner.py:119-133 | In every reachable state a started node has only COMPLETE or SYNTHETIC dependencies, with stored outputs. |
| `WorkflowTheorems.FailureBlocksDescendants` | runtime/workflow_run_support.py:65-74 | In every run that returns, all nodes have a state, and each transitive descendant of a node that did not succeed is BLOCKED, stored nothing and received no handoff. |
| `WorkflowTheorems.EdgeIdInjective` | runtime/handoff_governance.py:92-94 | Handoff identifiers determine node and input position, for any session and node names. |
| `WorkflowTheorems.HandoffIdsUnique` | runtime/workflow_runner.py:234-276 | No two handoffs of a run share an identifier, the risk escalation included. |
| `WorkflowTheorems.HandoffLifecycle` | runtime/workflow_runner.py:292-318 | At every step existing handoffs keep their contract and place; only pending ones addressed to the acting node may leave CREATED, once, and are sealed when they do. |
| `WorkflowTheorems.DeliveredVerdict` | runtime/handoff_governance.py:97-157 | With every node successful and every handoff consumed, governance passes exactly when each receiving output carried an identifier of its own. |
| `WorkflowTheorems.CompleteRunGovernance` | runtime/workflow_run_support.py:134-156 | For every interleaving and every answer, a COMPLETE run completed every node and consumed every edge and declared control at its addressed node; its governance verdict is PASS exactly when every receiving output has a nonempty `output_id`. |
| `GovernanceGap.CompleteUpToNames` | runtime/workflow_run_support.py:134-156 | On every graph, if no agent was left out and no risk lacks a receiver, there is a live run that returns COMPLETE with all answers under one given id and meeting the rules for outputs; it passes exactly if that id is not empty or nothing is handed to anyone. |
| `GovernanceGap.EverybodyCompletes` | runtime/workflow_runner.py:80-153 | On every graph, one call per node being allowed, the run in which every node completes exists, with answers that meet the rules for outputs. |
| `GovernanceGap.LiveOutputPasses` | runtime/structured_output.py:179-197 | The answers of those runs pass for every agent: a specialist decides on evidence of the same output, ids are unique, and nothing in the texts needs a claim. |
| `BuilderRuns.CompleteWithoutGovernance` | runtime/workflow_run_support.py:134-156 | The concrete failure: on the graph of a request that matches no keyword, under default limits and with whatever risks, a run whose answers meet the rules for outputs returns COMPLETE and its audit has failed. |
| `WorkflowEngine.LaunchIsPrepared` | runtime/workflow_run_support.py:28-62 | The risk escalation adds one declared control addressed to the scrummaster node, and nothing else that execution relies on changes. |
| `EchoRuns.EchoRunVerdict` | runtime/structured_output.py:133-146 | An undisturbed echo run that returns leaves every node SYNTHETIC with status PARTIAL; governance passes, with everything consumed, exactly unless a risk was escalated without a scrummaster node. |
| `EchoRuns.UntargetedRiskFails` | runtime/workflow_run_support.py:28-62 | A risk control without a target node makes governance fail in every run. |
| `EchoRuns.EchoOutputPasses` | runtime/structured_output.py:59-130 | After outputs with sound evidence the synthetic output meets the rules for outputs, for every agent. |
| `EchoRuns.BuilderRunsArePrepared` | runtime/workflow_run_support.py:28-62 | Runs on builder graphs meet every assumption of the run theorems, whatever the route and the open risks. |
| `BuilderRuns.ScrumExactly` | runtime/workflow_graph.py:190-300 | A scrummaster works on a builder graph exactly in a full audit, as the lead, or when the route has low confidence or names it. |
| `BuilderRuns.RiskTargetExactly` | runtime/workflow_run_support.py:28-62 | On every builder graph: a risk is escalated exactly when there is one and the scrummaster does not lead, and it has a receiver exactly in a full audit or when the route brings in a scrummaster. |
| `BuilderRuns.UnreceivedRiskFails` | runtime/workflow_run_support.py:28-62 | On a route without receiver the audit fails however the run with an escalated risk goes. |
| `BuilderRuns.UnreceivedRiskIsNotComplete` | runtime/workflow_run_support.py:134-156 | Such a run is never reported COMPLETE. |
| `BuilderRuns.OfflineVerdict` | runtime/structured_output.py:133-146 | Undisturbed offline runs of builder graphs pass exactly when no risk is escalated or the route brings in a scrummaster. |
| `BuilderRuns.ConversionRequestFails` | runtime/orchestrator.py:90 | The concrete failure: a conversion request without a domain; there is a run in which every node completes with answers that meet the rules for outputs, and in every run the audit fails. |
| `BuilderRuns.PipelineLevels` | runtime/workflow_graph.py:98-116 | Where each node waits for the one before, the levels are the single nodes in order. |
| `WorkflowRunner.WorkflowRun.constructor` | runtime/workflow_runner.py:41-60 | A fresh run object is the initial state of the step relation, with one live handoff per initial record. |
| `WorkflowRunner.WorkflowRun.BeginNode` | runtime/workflow_runner.py:119-134 | The segment before the semaphore, on the live fields, does what the step relation says; the handoffs it adds are new objects. |
| `WorkflowRunner.WorkflowRun.BlockNode` | runtime/workflow_run_support.py:65-74 | Blocks one node and changes nothing else of the run. |
| `WorkflowRunner.WorkflowRun.AppendHandoffs` | runtime/workflow_runner.py:133 | Extends the live handoffs by one new pending object per contract, in order. |
| `WorkflowRunner.NewHandoffs` | runtime/workflow_runner.py:234-276 | One new pending handoff per contract, all distinct objects. |
| `WorkflowRunner.ResolveNodeHandoffs` | runtime/workflow_runner.py:292-318 | The loop over the live handoffs resolves exactly the pending ones addressed to the node, each as the value-level resolution says. |
| `WorkflowRunner.WorkflowRun.FinishNode` | runtime/workflow_runner.py:146-153 | The segment after the agent returned: resolution, stored output, completion order and state, as the step relation says. |
| `WorkflowRunner.WorkflowRun.CallOnce` | runtime/structured_output.py:276-291 | One turn of the correction loop up to the model call: reserve first, or end the agent as blocked. |
| `WorkflowRunner.WorkflowRun.TakeReply` | runtime/structured_output.py:291-307 | The rest of that turn: finish on a valid answer, fail after the permitted corrections, otherwise correct. |
| `WorkflowRunner.WorkflowRun.Perform` | runtime/workflow_runner.py:80-153 | Any enabled action taken on the object is the action of the step relation: the object refines it. |
| `WorkflowRunner.WorkflowRun.FinalAudit` | runtime/workflow_runner.py:179-212 | The in-place audit at the end reports what the run theorems reason about, and the live handoffs then hold the records of the report. |
| `WorkflowRunner.Session.AppendRiskHandoff` | runtime/workflow_run_support.py:28-62 | Appends the risk handoff and its declared control together, or neither. |
| `Handoffs.Handoff.Consume` | runtime/state.py:84-95 | Assigns the consumption fields and leaves the contract and the receipt. |
| `Handoffs.Handoff.Block` | runtime/state.py:97-100 | Assigns the blocked status, reason and resolution, and nothing else. |
| `Handoffs.Handoff.Seal` | runtime/handoff_receipts.py:12-24 | Stores the digest of all fields but the receipt. |
| `Handoffs.ResolveAcknowledgements` | runtime/handoff_governance.py:20-65 | The in-place resolver does to the live handoff what `Resolve` says of its value. |
| `Handoffs.ResolveShape` | runtime/handoff_governance.py:20-65 | Resolution leaves a pending handoff alone or makes it terminal under a valid receipt; a consumed one names the addressed receiver and is backed by evidence or a challenge. |
| `Handoffs.ResolveOutcome` | runtime/handoff_governance.py:20-65 | A pending handoff is consumed exactly when one acknowledgement names it and repeats its contract to the addressed receiver, and stays pending exactly when none names it. |
| `Handoffs.AcceptsIsExact` | runtime/handoff_governance.py:68-84 | The sorted comparisons amount to comparing evidence references and criteria as multisets. |
| `HandoffReconciliation.PassMeansReconciled` | runtime/handoff_governance.py:97-157 | The audit passes exactly when ids are unique and prefixed, every required edge and declared control is consumed as addressed under a valid receipt, and no other handoff exists; then it changes nothing. |
| `HandoffReconciliation.PassCounts` | runtime/handoff_governance.py:97-157 | On a pass the records are in one-to-one correspondence with required edges plus declared controls, and the counts say so. |
| `HandoffReconciliation.AuditClosesPending` | runtime/handoff_governance.py:216-230 | After any audit nothing is CREATED: pending records are blocked and sealed, all others are untouched. |
| `HandoffReconciliation.AuditIsIdempotent` | runtime/handoff_governance.py:97-349 | A second audit changes no record and gives the same verdict. |
| `HandoffAudit.AuditEdgeInPlace` | runtime/handoff_governance.py:278-333 | The edge audit over live handoffs computes the value-level audit and blocks in place exactly where that does. |
| `HandoffAudit.AuditEdgesInPlace` | runtime/handoff_governance.py:186-213 | The same for the loop over all required edges. |
| `HandoffAudit.AuditControlsInPlace` | runtime/handoff_control_governance.py:10-34 | The same for the loop over declared controls, with the set of declared ids. |
| `HandoffAudit.AuditControlInPlace` | runtime/handoff_control_governance.py:45-61 | The same for one declared control. |
| `HandoffAudit.FinalizeInPlace` | runtime/handoff_governance.py:216-230 | Blocks and seals every handoff still pending, in place. |
| `HandoffAudit.ReconcileRequiredHandoffs` | runtime/handoff_governance.py:97-157 | The whole audit over live objects returns the report the theorems speak of and leaves its records in the objects. |
| `RunBudgets.RunBudget.TakeNode` | runtime/run_budget.py:72-76 | Reserves a node or refuses with the first reason, changing nothing on refusal. |
| `RunBudgets.RunBudget.TakeCall` | runtime/run_budget.py:78-104 | Reserves a call, its correction and its cost together, or refuses with the first reason and changes nothing. |
| `RunBudgets.BudgetHolds` | runtime/run_budget.py:33-104 | Over every sequence of requests: counters count the admitted ones within the limits; the total is the sum of admitted quotes until the first unknown one and unknown for good after it; under a ceiling it is known and at most the ceiling. |
| `RunBudgets.RefusalIsInvisible` | runtime/run_budget.py:72-104 | A refused request makes no difference to any later one. |
| `BudgetedRuns.RunReplaysBudget` | runtime/run_budget.py:57-104 | The budget of any run is the replay of the requests its interleaved agents made, and its model calls are the admitted call reservations. |
| `BudgetedRuns.RunAccounts` | runtime/structured_output.py:276-307 | Across all interleaved agents and correction loops, model calls equal admitted reservations within the limit, and under a ceiling the cost is the sum of the admitted quotes. |
| `StructuredOutputs.TakeTurn` | runtime/structured_output.py:277-290 | One reservation of the loop, with other agents served first: refused or admitted as the budget seen at that moment decides. |
| `StructuredOutputs.CompleteAgentOutput` | runtime/structured_output.py:276-307 | The correction loop, with other agents drawing on the budget between turns, ends at the first valid answer, the first refused reservation or after the permitted corrections; each call has its own admitted reservation. |
| `FindingKeys.Norm` | runtime/finding_registry.py:21-22 | Normalised text consists of letters, digits and single inner spaces. |
| `FindingKeys.FindingKey` | runtime/finding_registry.py:29-56 | Both parts of a key are normalised text. |
| `FindingKeys.KeyTextInjective` | runtime/finding_registry.py:59-61 | The text form of a key identifies it. |
| `FindingRegistries.FindingRegistry.AddOutput` | runtime/finding_registry.py:193-237 | Folds the findings of one output into the records, in order. |
| `FindingRegistries.FindingRegistry.ReconcileActionPair` | runtime/finding_registry.py:242-289 | Marks contradictions or review issues of one pair and reports a conflict exactly for opposite polarities on one target. |
| `FindingRegistries.FindingRegistry.Conflicts` | runtime/finding_registry.py:291-321 | Scans every pair of one scope in the order of the code. |
| `FindingRegistries.FindingRegistry.AcceptAllWithoutConflict` | runtime/finding_registry.py:323-336 | The loop adds and drops no record; a record whose key a conflict names becomes CONFLICTED with contradictory evidence, the others are ACCEPTED exactly with valid evidence and nothing to review, else EVIDENCE_REVIEW; no other field changes. |
| `FindingRegistries.ReconcileOutputs` | runtime/workflow_runner.py:161-173 | Adding outputs, scanning and accepting in place computes the registry the theorems speak of. |
| `FindingRules.ScanVisits` | runtime/finding_registry.py:311-321 | The scan meets every two findings of one scope, and no others. |
| `FindingRules.FoldFollows` | runtime/finding_registry.py:193-237 | Before the scan each record holds the join of its findings over their multiset: references, agents, ids, own issues, highest severity, worst evidence with shared references as duplicates. |
| `FindingRules.RegistryFollowsRule` | runtime/finding_registry.py:193-336 | Each final record obeys a rule over the multiset of findings that mentions no order: lattice join, pairwise shared references, opposite polarities and review pairs. |
| `FindingRules.OrderIndependence` | runtime/workflow_runner.py:161-173 | Outputs completed in any order give the same keys with the same state, evidence state, severity, references, review issues, agents and ids. |
| `FindingConflicts.ConflictsOrderIndependent` | runtime/finding_registry.py:291-321 | Outputs completed in any order report the same conflicts, each as often, between the same two findings of the same agents. |
| `RunFindings.FindingsIgnoreTiming` | runtime/workflow_runner.py:161-173 | Two interleavings of a workflow that end with the same answers end with the same findings. |
| `RunFindings.ConflictsIgnoreTiming` | runtime/workflow_runner.py:161-173 | Two interleavings of a workflow that end with the same answers report the same conflicts. |
| `FindingDecisions.ListRecords` | runtime/finding_registry.py:239-240 | The registry is listed in key order, each record once. |
| `FindingDecisions.DecisionsNeverRaise` | runtime/finding_registry.py:339-400 | On every registry result the decision step succeeds: one revision per conflict, and one approval naming exactly the accepted records of high or critical severity when there are any. |
| `FindingDecisions.EvidenceValidExactly` | runtime/finding_registry.py:116-153 | A finding has valid evidence exactly when it cites something, nothing twice, and each reference matches one item in a sound state. |
| `JsonPointers.UnescapeEscape` | adapters/evidence_identity.py:47-48 | Evaluation by section 4 of RFC 6901 undoes the escaping of every token. |
| `JsonPointers.ParseRender` | adapters/evidence_identity.py:47-66 | Every path built on the way down is a pointer, by sections 3 and 4 of RFC 6901, to exactly the keys it was built from. |
| `DriftPatches.DriftIsPatch` | adapters/evidence_identity.py:51-70 | Applied strictly, the changes found between two documents turn the first into the second. |
| `DriftPointers.IterRenders` | adapters/evidence_identity.py:51-70 | Each reported entry is the change at the place its pointer names. |
| `DriftPointers.DriftAppliesExactly` | adapters/evidence_identity.py:51-70 | Read as JSON Pointers, the report turns the first document into the second exactly when both are objects or nothing differs. |
| `DriftPointers.RootIsMisplaced` | adapters/evidence_identity.py:67-70 | A differing root that is not a pair of objects is reported at `/`, and that report does not give the second document. |
| `DriftPointers.SilentExactly` | adapters/evidence_identity.py:51-70 | Nothing is reported exactly when the documents are equal. |
| `DriftPointers.PointersDistinct` | adapters/evidence_identity.py:51-70 | No two entries share a pointer. |
| `DriftPointers.ReportIsComplete` | adapters/evidence_identity.py:71-109 | The report dictionary drops no entry, and swapping the documents swaps additions and removals and keeps everything else. |
| `EvidenceIntegrity.DecodeRowsExactly` | adapters/evidence_integrity.py:77-144 | A listing decodes exactly when each of its rows passes both hash checks and holds two JSON objects. |
| `EvidenceStores.EvidenceStore.Record` | adapters/evidence_store.py:126-197 | Succeeds exactly for a URL with canonical form, labels that are neither blank nor too long, payloads within the size limit, a non-negative time and an open store; then one row with a new highest id is appended, labels stripped, that decodes to the payload and scope recorded; otherwise nothing changes. |
| `EvidenceStores.RecordThenLatest` | adapters/evidence_store.py:126-239 | Round trip: a snapshot just recorded, nothing newer being stored under its query, is what the URL and labels it was recorded under answer, with or without its schema, payload and scope as given. |
| `EvidenceRows.RecordedIsNewest` | adapters/evidence_store.py:205-239 | A new row that nothing is newer than comes first in every listing it matches, and the rest of the listing stays. |
| `EvidenceStores.EvidenceStore.Latest` | adapters/evidence_store.py:205-239 | Returns the newest rows of the query decoded, exactly when arguments are valid, the store is open and each of them decodes. |
| `EvidenceStores.EvidenceStore.Compare` | adapters/evidence_store.py:241-255 | Compares the two newest rows of the query, or reports why not. |
| `EvidenceStores.ComparisonIsPatch` | adapters/evidence_identity.py:71-109 | A comparison reports every difference, as a patch from the older payload to the newer one. |
| `EvidenceStores.RankIsNewerCount` | adapters/evidence_store.py:296-303 | The per-series counter of the loop equals the number of newer rows in the series. |
| `EvidenceStores.CollectExpired` | adapters/evidence_store.py:289-303 | The loop collects the ids of exactly the selected rows that are older than the cutoff and outside the newest `keep_latest` of their series. |
| `EvidenceStores.EvidenceStore.Purge` | adapters/evidence_store.py:257-309 | Leaves exactly the rows that are unselected, at or after the cutoff, or among the newest `keep_latest` of their series, and returns the number deleted; no query for at most that many rows changes its answer. |
| `EvidenceRows.DeletedIsSuffix` | adapters/evidence_store.py:257-309 | Whatever is older than a deleted row of its series is deleted too. |
| `EvidenceRows.LatestUnchanged` | adapters/evidence_store.py:205-309 | A purge never changes the answer to a query for at most `keep_latest` rows, with or without a schema filter; a comparison is the query for two. |
| `EvidenceRows.SecondPurgeKeepsAll` | adapters/evidence_store.py:257-309 | A second purge with the same or milder arguments deletes nothing. |
| `EvidenceStores.EvidenceStore.Delete` | adapters/evidence_store.py:311-329 | Deletes exactly the rows of the URL and group, and returns their number. |
| `EvidenceStores.EvidenceStore.IntegrityCheck` | adapters/evidence_store.py:331-359 | Checks every row and reports one error per row that does not decode; none exactly when the table is intact. |
| `EvidenceMigrations.MigrationKeepsAndVerifies` | adapters/evidence_migrations.py:51-133 | A migrated table has the same rows in the same places; no digest that was there is replaced, only the URL and missing digests change, and a row verifies afterwards exactly if it lacked a digest or verified before. |
| `EvidenceMigrations.MigrationRefusedExactly` | adapters/evidence_migrations.py:51-133 | A table is refused exactly when some row lacks a digest and its other digest disagrees with its canonical content or its URL has no canonical form. |
| `EvidenceMigrations.Connection.BackfillRow` | adapters/evidence_migrations.py:51-96 | The in-place update by id changes exactly the given row, as the value-level backfill says, or nothing. |
| `EvidenceMigrations.Connection.MigrateSchema` | adapters/evidence_migrations.py:99-133 | All rows are migrated, or the first refused one is reported and the whole table is as before. |
| `EvidenceMigrations.MigrateTwice` | adapters/evidence_migrations.py:99-133 | A second migration changes no row. |
| `EvidenceMigrations.Connection.RepairDigests` | adapters/evidence_migrations.py:136-176 | The explicit repair rehashes all rows, after which each verifies, and counts those that changed; a URL without canonical form raises with exactly the earlier rows rewritten. |
| `EvidenceMigrations.RepairSettles` | adapters/evidence_migrations.py:136-176 | Repairing a repaired table changes no row and counts none. |
| `Publications.Publisher.Refresh` | scripts/publication_publish.py:23-29 | Succeeds only after the workflow context, an authorisation with the baseline binding and a current temporal proof, and writes nothing. |
| `Publications.Publisher.Items` | scripts/publication_remote.py:28-37 | Returns the rows of a complete listing: full pages in order from the first, then one short page; nothing is written. |
| `Publications.Publisher.AssetItems` | scripts/publication_remote.py:61-64 | Every row returned came from a page of this release; nothing is written. |
| `Publications.Publisher.ReleaseTaken` | scripts/publication_publish.py:47-48 | Answers from a complete listing whether a release bears the tag. |
| `Publications.Publisher.UnusedDestination` | scripts/publication_remote.py:40-49 | Passes only when no listed tag reference and no release in a complete listing bears the tag. |
| `Publications.Publisher.ObservedTag` | scripts/publication_remote.py:52-58 | Passes only when the one reference read names exactly the tag and the candidate commit. |
| `Publications.Publisher.Draft` | scripts/publication_publish.py:32-41 | Passes only when the draft was found unchanged and its complete listing is exactly the uploaded names and ids; nothing is written. |
| `Publications.Publisher.ObserveAsset` | scripts/publication_remote.py:68-85 | One listed asset is a new approved file whose downloaded bytes equal the approved ones. |
| `Publications.Publisher.ObservedAssets` | scripts/publication_remote.py:61-86 | Passes only when every approved file came back, under an asset the release lists by its name, with exactly its bytes. |
| `Publications.Publisher.CheckRelease` | scripts/publication_remote.py:92-104 | Passes only on the expected public repository, tag, release record and publication state, the record read last. |
| `Publications.Publisher.ObservedRelease` | scripts/publication_remote.py:89-109 | Passes only when the release record fits and after it all approved bytes were read back; nothing is written. |
| `Publications.Publisher.NewDraft` | scripts/publication_publish.py:44-57 | At most one write, the creation of the draft, directly after a re-authorisation. |
| `Publications.Publisher.UploadFile` | scripts/publication_publish.py:60-66 | At most one write, the upload, and a result only if the acknowledgement matches the bytes. |
| `Publications.Publisher.UploadNext` | scripts/publication_publish.py:82-85 | At most the upload of this file, only to a draft found since the last write to list exactly the uploads acknowledged so far, and directly after a re-authorisation. |
| `Publications.Publisher.UploadAll` | scripts/publication_publish.py:81-85 | Uploads a prefix of the approved files in sorted order, all of them on success. |
| `Publications.Publisher.TagCandidate` | scripts/publication_publish.py:73-79 | At most one write, the tag, after a survey that found tag and release unused and directly after a re-authorisation. |
| `Publications.Publisher.MakePublic` | scripts/publication_publish.py:86-90 | The undraft write follows only a complete read-back with no write in between. |
| `Publications.Publisher.Publish` | scripts/publication_publish.py:69-94 | Whatever the provider answers and wherever it fails, the writes are a prefix of create tag, create draft, one upload per file in sorted order, undraft; each directly follows a re-authorisation with the baseline binding; before each upload the draft was found to list exactly the uploads acknowledged before it; undraft only after all approved bytes were read back; and nothing at all before the tag and release were found unused. |
| `Publications.PlanUploadsEachOnce` | scripts/publication_publish.py:81-85 | The plan uploads every approved file exactly once, in the order of the names. |
| `PublicationTraces.WriteStep` | scripts/publication_publish.py:69-94 | One more write keeps the discipline of the trace if it follows a re-authorisation and, for an upload, a check of the draft against the uploads so far or, for undraft, a complete read-back. |
| `PublicationTraces.NothingUploaded` | scripts/publication_publish.py:80-85 | As long as no upload was sent, none is acknowledged: the draft must list nothing before the first. |
| `PublicationTraces.QuietStep` | scripts/publication_publish.py:69-94 | Reads never disturb what was established about the writes. |
| `TemporalProofs.TemporalProof.Include` | scripts/publication_freshness.py:25-27 | Narrowing the two bounds keeps them the latest start and the earliest end of everything recorded. |
| `TemporalProofs.TemporalProof.AssertCurrent` | scripts/publication_freshness.py:29-35 | Passes exactly when some check was made under the proof, time has not gone back and every check made would itself pass now, a clamped window at the last representable instant excepted; only then the last time moves. |
| `TemporalProofs.Collectors.Enter` | scripts/publication_freshness.py:42-48 | A new innermost collector starts empty and remembers the active ones around it; the others keep what they recorded. |
| `TemporalProofs.Collectors.RecordInterval` | scripts/publication_freshness.py:51-57 | Records in every active collector at once, or in none if the interval is empty. |
| `TemporalProofs.Collectors.RequireFresh` | scripts/publication_subject.py:94-103 | Passes exactly when the issue time is not too far ahead and has not expired; then every active collector, and no other, has made this check. |
| `TemporalProofs.Collectors.FreshWindow` | scripts/publication_provider.py:45-57 | Passes exactly when the two-timestamp window is ordered, not too far ahead and not expired; then every active collector, and no other, has made this check. |
| `TemporalProofs.Collectors.RequireUnexpired` | scripts/publication_provider.py:228-231 | Passes exactly before the expiry; then every active collector, and no other, has made this check. |
| `TemporalProofs.IntervalsAgree` | scripts/publication_freshness.py:60-72 | The interval a check records holds exactly when the check would pass again; only at the last representable instant is a clamped window stricter. |
| `TemporalProofs.ProofIsExact` | scripts/publication_freshness.py:17-72 | The intervals that any list of once-passed checks records all hold at an instant exactly when each check would itself pass then. |
| `TemporalProofs.Collectors.OuterWithinInner` | scripts/publication_freshness.py:42-57 | Whether or not it has been left, the bounds of a collector lie around those of every collector that was active when it was opened. |
| `ReachableEvidence.Reachable` | scripts/publication_evidence.py:58-74 | Returns the least set of records closed under references from the section, cycles included, and raises exactly when no closed set exists because a reachable reference is invalid. |
| `ReachableEvidence.Inventory` | scripts/publication_evidence.py:126-128 | The record list of the seal has one row per member of that least set and no other, in path order, with digest and size of its bytes; the digest is the one that references to the record cite. |
| `ReachableEvidence.TotalOpens` | scripts/publication_evidence.py:60-73 | Opening or dropping the last item makes the worklist smaller: the second part of the termination measure. |
| `ReachableEvidence.Opened` | scripts/publication_evidence.py:62-73 | Opening an item loses no reference and adds none that a closed set would not have. |
| `ReachableEvidence.Followed` | scripts/publication_evidence.py:67-71 | Following a new reference loses nothing and adds only what every closed set contains. |
| `KeyRedaction.NumberedInjective` | sensitive_data.py:158 | Candidate names with different ordinals differ. |
| `KeyRedaction.Rename` | sensitive_data.py:155-161 | Starting from the remembered ordinal, the loop ends and still finds the first free name of the row. |
| `KeyRedaction.RedactMappingKeys` | sensitive_data.py:148-162 | One entry out per entry in, in order, with its value and a distinct key; a key redaction leaves alone keeps its own name whatever collides; a changed key gets the first free name. |
| `PhaseClosures.CheckLanes` | scripts/autonomous_seo_phase_closure.py:353-367 | The loops over lanes produce exactly the errors of the specification. |
| `PhaseClosures.LanesExactly` | scripts/autonomous_seo_phase_closure.py:353-367 | No lane error exactly when no lane changed at all. |
| `PhaseClosures.AcceptedExactly` | scripts/autonomous_seo_phase_closure.py:247-350 | A transition has no errors exactly when the phase set stays, the reviewed phase goes from IN_PROGRESS or BLOCKED to COMPLETE with technical PASS and an explicit outcome, the next one goes from NOT_STARTED to IN_PROGRESS and becomes current, and every other phase, the immutable fields and the lanes stay. |
| `PhaseClosures.ChainKeepsShape` | scripts/autonomous_seo_phase_closure.py:247-350 | Any chain of transitions without errors keeps that shape and reviews the phases in order. |
| `PhaseClosures.CompletedNeverChanges` | scripts/autonomous_seo_phase_closure.py:321-335 | A phase that was complete at some point of a chain is the same record ever after. |
| `PhaseClosures.ChainIsBounded` | scripts/autonomous_seo_phase_closure.py:295-350 | No chain is longer than the phase list, whatever program it starts from. |
| `SerpEvidence.WeightsNormalised` | scripts/content_serp_observations.py:36-49 | Accepted weights are normalised to lie between 0 and 1 and to sum to 1. |
| `SerpEvidence.CollectSerpObservations` | scripts/content_serp_observations.py:103-148 | The loop over result rows computes the collection that the theorems speak of, and raises exactly when the URL of a first row cannot be taken apart or the entities of a kept row have no length. |
| `SerpEvidence.RowsCountedOnce` | scripts/content_serp_observations.py:103-148 | Every row with a URL is counted exactly once, as competitor, inaccessible, duplicate or own. |
| `SerpEvidence.CompetitorsExactly` | scripts/content_serp_observations.py:103-148 | The competitors are exactly the rows that have a URL, are the first with their URL, and are neither own nor inaccessible, each with its own signals and score. |
| `SerpEvidence.CollectedCoherent` | scripts/content_serp_observations.py:103-148 | Competitors carry their own signals and scores, no two URLs collide, and none is also listed as inaccessible. |
| `SerpEvidence.ScoreBounds` | scripts/content_serp_observations.py:84-100 | Every heuristic score lies between 0 and 100. |
| `SerpEvidence.BarIsBest` | scripts/content_serp_observations.py:240 | In every assessment with competitors, stale or not, the bar to beat is the best score, and all scores lie between 0 and 100. |
| `SerpEvidence.AssessedIsValidExactly` | scripts/content_brief_validation.py:157-169 | Over the inputs: the status is OK exactly when some row is kept and the capture is not stale, and the validator accepts exactly OK assessments whose kept rows have absolute http(s) string URLs, whose required capture fields are texts and not blank and whose dates are in order, not in the future and at most thirty days old. |
| `SerpEvidence.AssessAnyDay` | scripts/content_serp_observations.py:184-250 | An assessment depends on the day it is made on only through its date. |
| `SerpEvidence.AssessedIsValidLater` | scripts/content_brief_validation.py:157-169 | The same condition for validation on any other day, with the ages and the future taken from that day. |
| `SerpEvidence.GoodInputsAccepted` | scripts/content_brief_validation.py:157-169 | Such inputs, with accepted weights, a kept row and nothing that raises, are always assessed as OK and always accepted. |
| `SerpDisagreements.ReferenceIsAccepted` | scripts/content_brief_validation.py:157-169 | A concrete capture of one row that is assessed as OK and accepted. |
| `SerpDisagreements.NoSchemeIsRefused` | scripts/content_brief_validation.py:87-91 | The same with a URL without scheme: OK, and refused. |
| `SerpDisagreements.NumericUrlIsRefused` | scripts/content_brief_validation.py:92-93 | The same with a number for a URL: OK, and refused. |
| `SerpDisagreements.BlankSourceIsRefused` | scripts/content_brief_validation.py:67-68 | The same with a source of one blank: OK, and refused. |
| `SerpDisagreements.NumericSourceIsRefused` | scripts/content_brief_validation.py:67-68 | The same with the number seven as source: OK, and refused. |
| `SerpDisagreements.FutureCaptureIsRefused` | scripts/content_brief_validation.py:69-73 | The same with a capture dated tomorrow: OK, and refused. |
| `SerpDisagreements.FutureAssessmentIsRefused` | scripts/content_brief_validation.py:122-131 | The same with an assessment dated tomorrow: OK, and refused. |
| `SerpDisagreements.TailedDateIsRefused` | scripts/content_brief_validation.py:69-72 | The same with a capture date that only begins like a date: OK, and refused. |
| `SerpDisagreements.BrokenUrlRaises` | scripts/content_serp_observations.py:24-28 | The same with a URL that cannot be taken apart: no assessment at all. |

## Left out

- LLM clients, HTTP and browser transport, subprocesses, command lines, file and Git access: only their results appear, as arbitrary inputs.
- OutputRules.Passes: covers outputs of the current contract without material claims; of the texts that may hold numbers or URLs only the summary and those of the findings are modelled.
- SerpEvidence.Assess: rows, weights and captures of another JSON type than the signature says are not modelled; a host once extracted is taken apart again without raising; the position and page type that are passed through are left out.
- JSON Schema validation: accepted answers carry the node's agent and no SYNTHETIC state; nothing else of the schemas is used. `default_governance_decision` and the validation of decisions are not modelled.
- Issue details, reasons, wordings and event texts are not modelled, or are parameters that no proof depends on; of the event log only the RUNNING events are kept, as `started`. Fields of a finding other than severity and references, which the registry takes from the first finding to arrive, are not modelled.
- Floats are reals: costs, scores, weights and times carry no rounding except the rounding to one decimal of scores; values that are not finite appear only as refused quotes. SQLite's and Python's own number formats are not modelled.
- Python's equality across types: JSON values have one structural equality, and an integer-valued number counts as an integer.
- Case folding is that of ASCII letters; text is compared by code point; URL parsing, host extraction, IDNA, date syntax and regular expressions are predicate or function parameters.
- Concurrency inside one uninterrupted segment, cancellation of tasks and the order in which the semaphore wakes waiting agents: every order is allowed.
- WorkflowEngine.EchoOutput: the request and the domain, which it quotes, are fixed texts.
- WorkflowEngine: a run starts on a fresh session, and a handoff is stamped with one clock reading per segment.
- WorkflowRunner.WorkflowRun.Perform: the asyncio scheduler itself is not modelled; any enabled action may come next.
- FindingRegistries.FindingRegistry.AddOutput: records are values in the registry's map, so aliasing of a record object is not modelled.
- EvidenceStores.EvidenceStore.Record: takes payload, scope, source and run id after redaction, and sizes count characters, not UTF-8 bytes.
- EvidenceStores.EvidenceStore.Purge: a transaction is one method; other connections to the database and its file are not modelled.
- EvidenceMigrations.Connection.MigrateSchema: missing columns and the index are taken to be in place; only the rows and the rollback are modelled.
- EvidenceMigrations.Connection.RepairDigests: the commit is not modelled; on an error the rows rewritten so far are those the open connection sees.
- Publications.Publisher.Authorize: the authorisation of a candidate (bundle, evidence pull request, executions, decisions) is one answer of the provider: its binding text, its files and its temporal proof.
- Publications.Publisher.ObservedRelease: only the use with a known release id; the returned description of the release is not modelled.
- TemporalProofs.Collectors.Exit: collectors belong to one context; copies of a context variable are not modelled.
- ReachableEvidence.Reachable: `execution_seal` beyond its inventory of records is not modelled.
- KeyRedaction.RedactMappingKeys: the recursive `redact` and its token patterns are not modelled; what redaction makes of a key is a parameter.
- PhaseClosures.AcceptedExactly: with the same phases on both sides, a phase that the code looks up and does not find raises there and is excluded here; phases and lanes are maps by id.
- The keyword matching of the router (two of its answers appear as constants), CSV and payload adapters, document generators, ZIP parsing and the per-provider shape checks of publication results: flat checks without state.
