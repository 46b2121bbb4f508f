# Verification of the dynamic computation graph runtime

This project models the parts of the runtime that hold real algorithms and state machines, and
proves what each of them is for. It is a Dafny 4.11 project: `dafny verify dfyconfig.toml`
checks all of it.

**Calibration** (`Isotonic`, `Calibration`, over `RealSums`). Pool-adjacent-violators works on
its list of blocks as the source does, backing up one block after a merge. The theorem is the
optimality of the result: every other non-decreasing fit is worse, by at least its squared
distance to the pooled one, so the fit is also unique. The binned calibration error is
computed exactly and bounded by the Brier score.

**Graphs** (`StructuralGraph`, `Cycles`, `Walks`, `Validator`, `WellFormedGraphs`, `Ir`). The graph
is a class with its authoring operations; the recursive cycle search shares its visited and stack
sets through an object. The validator reports a code at a unit or edge exactly when the rule of that code is
broken there, and its verdict is a well-formedness predicate that does not mention codes.

**Documents** (`Json`, `Schema`, `Documents`, `Enums`, `RoundTrips`, `DocumentMeaning`, `Reading`,
`Serialization`). JSON is a value; its text syntax is not modelled. Printing a valid graph always
meets the acceptance predicate, and parsing gives the graph back up to the order of its edges. What
a document says about a graph is defined field by field, apart from the parser, and the parser
reads exactly that.

**Cognition and control** (`Cognition`, `Controller`). The dependency closure is the fixpoint
loop of the source, proved equal to reachability. Selection is deduplication, authorization,
Pareto pruning and the lexicographic minimum.

**Protocols and windowed state machines** (`Handoff`, `Adapters`, `KnowledgeBase`,
`RollbackBreaker`, `RulePolicy`, `Skills`, `Halting`, and `SemVer`). What keeps state is a class
with the source's fields, an explicit clock argument where the source reads a clock, and a
history of what it did, as a ghost field or as a list of operations; the theorems are about all
runs. The halting policies are frozen values and stay functions.

**Snapshots** (`Snapshots`, `Effects`). Capture, admission, restore and the effect ledger, with
hashes as parameters.

`Text`, `Sorting`, `RealSums`, `Walks` and `Wrappers` hold the orders, the stable sort, the sums
and the reachability that several of these share.

## Where an expected property fails

In each of these cases the code is modelled as it is, and the exact condition is proved:

- Tied scores are not pooled, so isotonic thresholds may repeat
  (`Isotonic.StrictThresholdsIffDistinctScores`).
- A missing edge source makes the projection fail instead of reporting
  (`StructuralGraph.StructuralGraph.ProjectToExecutableDag`).
- The edge sort key takes a missing port for an empty one
  (`RoundTrips.OrderFreeIffKeysDistinguish`, `RoundTrips.MissingPortSortsLikeEmpty`); on a graph that
  passes the validator this cannot happen (`WellFormedGraphs.WellFormedIsOrderFree`).
- An item, a relation or a view added over invalid items is not invalidated
  (`Cognition.ItemKeepsSoundIff`, `Cognition.RelationKeepsSoundIff`, `Cognition.NewViewAgreesIff`).
- A repeat outside the deduplication window is applied again, and COMMIT does not look for the
  participant state (`Handoff.DeliveredOnceIff`, `Handoff.LateRepeatResurrects`,
  `Handoff.CommittedHoldsIff`).
- Pruning ignores the uncertainty that the selection key adds to the epistemic risk
  (`Controller.SelectedIsLeastIff` for a whole list, `Controller.DominanceAgreesWithKeyIff` for one
  pair, `Controller.UncertainSurvivor`).
- A commit after a rollback overwrites a later version, and the rollback target of version 1 is
  version 1 (`KnowledgeBase.CommitPreservesIff`, `KnowledgeBase.TargetIsNewestCleanIff`).
- A rollback can leave two versions of a skill active (`Skills.RollbackKeepsUniqueIff`).
- A cleanup record can overwrite an entry (`Effects.NothingLostIff`).
- The adaptive policy can stop over contradictions when verifying is not available, and can ask
  for a sample that is not available (`Halting.AdaptiveStopSurvivesIff`,
  `Halting.UnavailableSampleIff`).
- The reason recorded with a replan decision can name a rule that did not fire
  (`RulePolicy.ReasonAccountsIff`).

Where code and documentation differ, the code is followed: the rule policy's documentation puts
the step deadline before the failure rule, the code tests it after completion, and the deadline
test itself is constantly false, so the model has no such rule
(`src/dnc/execution/decision_policy.py:84-92` against lines 162-188).

## Model

| member | source | states |
|---|---|---|
| Isotonic.PoolAdjacentViolators | src/dnc/assurance/calibration.py:243-250 | The in-place pooling loop terminates; each block has the count, mean and last score of a consecutive run of observations, every proper prefix of a block has a greater mean than the block, block means never decrease, and the step fit is an isotonic regression of the labels. |
| Isotonic.PooledBlocksAreUnique | src/dnc/assurance/calibration.py:243-250 | The data determine the blocks, even where neighbouring means are equal, so the returned curve is the only one. |
| Isotonic.PooledFitIsOptimal | src/dnc/assurance/calibration.py:240-251 | Against every non-decreasing fit g of the sorted labels, the pooled step fit has squared error smaller by at least the squared distance from g to it. |
| Isotonic.PooledFitIsUnique | src/dnc/assurance/calibration.py:240-251 | Any non-decreasing fit of least squared error is the pooled step fit, so the order of pooling does not matter. |
| Isotonic.StepFitMonotone | src/dnc/assurance/calibration.py:240-251 | The step fit has one value per observation and never decreases. |
| Isotonic.PoolingConserves | src/dnc/assurance/calibration.py:242-248 | Up to every block boundary, the blocks conserve the number of observations and the sum of labels. |
| Isotonic.FittedProbabilities | src/dnc/assurance/calibration.py:242-251 | With 0/1 labels every block mean lies between 0 and 1. |
| Isotonic.FitIsotonic | src/dnc/assurance/calibration.py:240-251 | Fails exactly on unequal lengths. Otherwise the observations are arranged by ascending score, tied labels ascending, and the curve is that of a pooling of them: an isotonic regression of the labels, non-decreasing in both coordinates, in which every block of several observations ends at a greater score than it starts; with all scores tied it is one point per observation, the labels ascending. |
| Isotonic.PooledRunSpansScores | src/dnc/assurance/calibration.py:241-251 | A pooled block of more than one observation ends at a strictly greater score than it starts: ties alone are never merged. |
| Isotonic.TiedScoresStayApart | src/dnc/assurance/calibration.py:241-251 | When all scores are equal, the curve is one point per observation, with the labels ascending. |
| Isotonic.StrictThresholdsIffDistinctScores | src/dnc/assurance/calibration.py:241-251 | Tied scores are not pooled: thresholds are strictly increasing for every labelling if and only if no score is repeated; with a tie, all-zero labels repeat a threshold. |
| Calibration.EvaluateCalibration | src/dnc/assurance/calibration.py:168-188 | The error cases exactly. The Brier score times n is the sum of squared errors; each reliability row holds the count and the means of the observations of its bin, one row per non-empty bin; the expected calibration error times n is the sum of the row gaps by count; in one order of the observations, by descending probability and tied labels descending, point k of the risk curve has coverage (k + 1) / n and (k + 1) times one minus its risk is the number of positive labels among the first k + 1; the squared calibration error is at most the Brier score, itself at most 1 for 0/1 labels. |
| Calibration.Reliability | src/dnc/assurance/calibration.py:176-184 | The binning loop yields one row per non-empty bin, loses no observation, and accumulates an error of at most the mean absolute gap. |
| Calibration.AllBins | src/dnc/assurance/calibration.py:178-180 | Bins partition observations with probabilities in [0, 1]: any weight summed bin by bin is the total weight. |
| Calibration.CauchySchwarz | src/dnc/assurance/calibration.py:174-184 | The squared sum of gaps is at most the number of observations times the sum of squared gaps. |
| Calibration.CalibrationBounds | src/dnc/assurance/calibration.py:168-188 | Square of the calibration error at most the Brier score; Brier score at most 1 for 0/1 labels. |
| Calibration.RiskCurveEnd | src/dnc/assurance/calibration.py:185-186 | The last point of the curve has coverage 1 and the overall error rate as its risk. |
| Calibration.RiskAtCoverage | src/dnc/assurance/calibration.py:185-186 | Each point of the curve keeps the most confident observations, and with 0/1 labels its risk is a probability. |
| Calibration.ConformalErrorBound | src/dnc/assurance/calibration.py:254-259 | Accepts exactly a non-empty list and 0 < alpha < 1. |
| Calibration.ConformalBoundIsLeast | src/dnc/assurance/calibration.py:254-259 | A bound covers every error or at least (n + 1)(1 - alpha) of them if and only if it is no smaller than the returned one. |
| Calibration.ConformalBoundCovers | src/dnc/assurance/calibration.py:254-259 | The returned bound covers at least the fraction 1 - alpha of the errors. |
| StructuralGraph.StructuralGraph.AddUnit | src/dnc/ir/graph.py:36-39 | Rejects exactly a taken identifier, without change; otherwise the graph gains that unit and nothing else. |
| StructuralGraph.StructuralGraph.RemoveUnit | src/dnc/ir/graph.py:41-47 | Rejects exactly an unknown identifier; otherwise removes the unit and exactly its incident edges, so no endpoint is left dangling. |
| StructuralGraph.StructuralGraph.AddEdge | src/dnc/ir/graph.py:49-53 | Appends the edge; all endpoints stay present if and only if both of its own are. |
| StructuralGraph.StructuralGraph.RemoveEdge | src/dnc/ir/graph.py:55-74 | Removes exactly the matching edges, keeps endpoints present and creates no cycle. |
| StructuralGraph.StructuralGraph.ProjectToExecutableDag | src/dnc/ir/graph.py:76-112 | Fails if and only if a data, control or dependency edge has a missing source; otherwise warns if and only if such edges form a closed chain, each starting where the one before it ends; without a warning there is an order of all units, without repetition, that puts the target of each such edge before its source. The graph is unchanged. |
| StructuralGraph.CycleSearch.Dfs | src/dnc/ir/graph.py:89-99 | The recursive search over the shared visited and recursion-stack sets: a positive answer means a cycle, a negative one extends a reverse topological order by everything reached and restores the stack. |
| StructuralGraph.CycleSearch.SearchFrom | src/dnc/ir/graph.py:101-106 | The outer loop over units reports a cycle only if one exists, and otherwise leaves every unit in a reverse topological order. |
| StructuralGraph.StructuralGraph.BuildAdjacency | src/dnc/ir/graph.py:84-87 | The adjacency lists hold exactly the targets of execution edges, in edge order; a missing source is the only failure. |
| Cycles.OrderedMeansAcyclic | src/dnc/ir/graph.py:89-112 | A reverse topological order of all edge sources rules out every cycle. |
| Cycles.HasCycleIffClosedChain | src/dnc/ir/graph.py:81-112 | The links have a directed cycle if and only if some data, control and dependency edges form a closed chain. |
| Cycles.CycleIffLinkReachesBack | src/dnc/ir/graph.py:89-112 | There is a cycle if and only if the end of some execution edge reaches its start. |
| Cycles.NewEdgeClosesCycle | src/dnc/ir/graph.py:49-53 | Adding an execution edge to an acyclic graph closes a cycle if and only if its target already reaches its source. |
| Validator.ValidateGraph | src/dnc/ir/validator.py:37-171 | For every graph, whatever keys its units are stored under: the errors are exactly the broken rules, each under its code and with the unit or edge it is broken at; the graph is valid if and only if it is well-formed; the warnings are exactly those about units with an empty negotiable constraint. |
| WellFormedGraphs.ValidateThenProject | src/dnc/ir/validator.py:37-171 | On a graph that passes the validator the projection never fails, and warns if and only if there is a cycle. |
| WellFormedGraphs.WellFormedIsOrderFree | src/dnc/ir/serialization.py:139-157 | A graph that passes the validator prints the same document for every insertion order of its edges. |
| Validator.WellFormedIffNothingViolated | src/dnc/ir/validator.py:37-171 | Well-formedness, stated without error codes (dimensions, unique ports, effect and idempotency pairing, endpoints, no duplicate edges, port agreement, governance, degrees within cardinality, non-empty invariants), holds if and only if no rule is broken. |
| Validator.CheckUnits | src/dnc/ir/validator.py:42-87 | Reports exactly the dimension, port and idempotency faults of the units. |
| Validator.CheckEdges | src/dnc/ir/validator.py:89-123 | Reports exactly the duplicate, dangling, contract and governance faults of the edges, a duplicate being an edge with the identity of an earlier one. |
| Validator.CheckEdgeContract | src/dnc/ir/validator.py:260-311 | Reports exactly the contract faults of one edge. |
| Validator.CheckEdgeGovernance | src/dnc/ir/validator.py:314-376 | Reports exactly the governance faults of one edge. |
| Validator.BindingIffNoContractFault | src/dnc/ir/validator.py:260-311 | An edge has no contract fault if and only if it is untyped at both ends of untyped units, or binds declared ports that run from output to input, carry its kind and share a schema. |
| Validator.GovernanceIffNoFault | src/dnc/ir/validator.py:314-376 | No governance fault if and only if tenants, classification, residency, trust zone and locality are compatible. |
| Validator.UnitIffNoFault | src/dnc/ir/validator.py:42-87 | A unit has no fault if and only if it is well-formed on its own. |
| Validator.UnitCodes | src/dnc/ir/validator.py:42-168 | The six codes about a unit, each the failure of one demand on it; the cardinality demand is stated as a table of the four kinds. |
| Validator.EndCodes | src/dnc/ir/validator.py:90-121 | Missing ends are reported at exactly the missing units that edges name, duplicates at exactly the edges with the identity of an earlier one. |
| Validator.BindingCodes | src/dnc/ir/validator.py:260-311 | The six codes about port bindings, each the failure of one demand on the two ports the edge names. |
| Validator.GovernanceCodes | src/dnc/ir/validator.py:314-376 | The five codes about governance, with the four classifications in an explicit order and compatibility as a common member. |
| Validator.EdgeViolation | src/dnc/ir/validator.py:121-123 | A contract or governance code is broken at a name if and only if some edge of that name between two present units breaks it. |
| Validator.ConnectionCounts | src/dnc/ir/validator.py:125-130 | The counter holds the true degree of every port, as the number of edge ends bound to it. |
| Validator.CheckCardinalities | src/dnc/ir/validator.py:131-148 | Reports a cardinality fault if and only if some port degree lies outside its bounds. |
| Validator.CheckConstraints | src/dnc/ir/validator.py:149-168 | Errors for exactly the empty invariants, warnings for exactly the empty negotiable constraints. |
| Serialization.ToDict | src/dnc/ir/serialization.py:36-157 | The printing loops produce the document of the graph; for every valid graph that document says the graph with its edges sorted, field by field, and parses back to it. |
| Serialization.FromDict | src/dnc/ir/serialization.py:165-317 | Parsing through the authoring operations succeeds exactly when the document reads as a graph, and builds a fresh graph, equal to it, that is what the document says field by field, missing fields with their defaults. |
| Reading.ReadsIff | src/dnc/ir/serialization.py:165-317 | For every document and graph: the document reads as the graph if and only if it is acceptable, the graph keeps every constructor invariant, and the document says that graph field by field, where a missing field of an older document says its default. |
| Reading.HeaderlessReadsAlike | src/dnc/ir/schema.py:36-115 | Whatever document is read, the same document without its header fields reads as the same graph: a header only adds checks. |
| Reading.SaysOneGraph | src/dnc/ir/serialization.py:165-317 | An acceptable document says at most one graph. |
| DocumentMeaning.PrintedSaysGraph | src/dnc/ir/serialization.py:36-157 | The document printed for a valid graph says that graph, with its edges in canonical order. |
| DocumentMeaning.CanonicalEdges | src/dnc/ir/serialization.py:136-146 | The printed edges are those of the graph, ascending by source, target, kind and ports, a missing port as the empty text, and edges with equal keys keep their order. |
| DocumentMeaning.PrintedSetsAscend | src/dnc/ir/serialization.py:86-129 | Every set of a unit is printed as an ascending list without repetition. |
| RoundTrips.PrintThenParse | src/dnc/ir/serialization.py:36-317 | For every valid graph, parsing the printed document gives the graph back up to edge sorting. |
| RoundTrips.PrintedIsAccepted | src/dnc/ir/schema.py:36-190 | Every document printed for a valid graph passes the acceptance predicate. |
| RoundTrips.ReprintIsStable | src/dnc/ir/serialization.py:139-157 | Printing the canonical graph gives the same document. |
| RoundTrips.ParseThenPrint | src/dnc/ir/serialization.py:165-317 | What any accepted document parses to prints to an accepted document that parses to the same canonical graph. |
| RoundTrips.OrderFreeIffKeysDistinguish | src/dnc/ir/serialization.py:139-157 | All insertion orders of the edges print identically if and only if edges with equal sort keys are equal. |
| RoundTrips.MissingPortSortsLikeEmpty | src/dnc/ir/serialization.py:143-150 | Concrete failing family: two edges that differ only in a missing against an empty port make printing depend on insertion order. |
| RoundTrips.EdgeDocumentsInjective | src/dnc/ir/serialization.py:140-157 | Different edge lists print differently. |
| RoundTrips.ContractReadsBack | src/dnc/ir/serialization.py:60-120 | A printed unit contract (ports, idempotency, side effects, placement, security) parses back to itself, through the constructor checks. |
| RoundTrips.SideEffectsReadBack | src/dnc/ir/contracts.py:103-141 | A valid side-effect contract survives printing and the checking constructor. |
| RoundTrips.PlacementReadsBack | src/dnc/ir/contracts.py:144-178 | A valid placement contract survives printing and the checking constructor. |
| RoundTrips.SecurityReadsBack | src/dnc/ir/contracts.py:193-225 | A valid security contract survives printing and the checking constructor. |
| RoundTrips.GovernanceAccepted | src/dnc/ir/schema.py:118-190 | The printed governance fields of a valid contract pass the governance checks. |
| RoundTrips.UnitsRoundTrip | src/dnc/ir/serialization.py:177-317 | All units of a valid graph survive the trip, under their own identifiers. |
| Text.StringLeqIff | src/dnc/ir/serialization.py:136-146 | The order of all sorted output: a string comes before another if it is a prefix of it or smaller at the first difference. |
| Documents.ReadGraph | src/dnc/ir/serialization.py:177-317 | Whatever is read satisfies every constructor invariant of the graph. |
| Cognition.DependencyClosure | src/dnc/cognition/state.py:335-350 | The fixpoint loop terminates with exactly the items reachable from the root. |
| Cognition.AffectedIsReachable | src/dnc/cognition/state.py:335-350 | Affected means reachable through `depends_on` and DEPENDS_ON relations together. |
| Cognition.InvalidateFrom | src/dnc/cognition/state.py:329-376 | Fails exactly on an unknown root. Otherwise each item is marked INVALID if it was current and a dependency walk leads to it from the root, and is unchanged otherwise; a view is listed if and only if it was listed or touches something reached, in ascending order; and the event lists exactly what the root reaches. |
| Cognition.InvalidationIdempotent | src/dnc/cognition/state.py:329-376 | A second invalidation from the same root changes no item and no view. |
| Cognition.InvalidationsCommute | src/dnc/cognition/state.py:329-376 | Two invalidations in either order give the same items and views. |
| Cognition.ViewsFollowItems | src/dnc/cognition/state.py:358-366 | A view is listed afterwards if and only if it was listed or depends on something reachable from the root. |
| Cognition.InvalidationKeepsSound | src/dnc/cognition/state.py:329-376 | Invalidation keeps "no current item depends on an invalid one" and leaves nothing current reachable from the root. |
| Cognition.InvalidationTaints | src/dnc/cognition/state.py:329-376 | After invalidating from a current item, everything it reaches counts as resting on something invalid. |
| Cognition.RelationKeepsSoundIff | src/dnc/cognition/state.py:263-282 | A new relation does not propagate old invalidations: soundness survives it if and only if it is not a dependency of something that reaches a current item on something tainted. |
| Cognition.InvalidationKeepsViewsAgree | src/dnc/cognition/state.py:358-366 | Invalidation keeps every view over an invalid item listed. |
| Cognition.NewViewAgreesIff | src/dnc/cognition/state.py:378-387 | Registering a view keeps that agreement if and only if the view avoids invalid items or is listed already. |
| Cognition.ItemKeepsSoundIff | src/dnc/cognition/state.py:209-237 | A new item is not invalidated by what it depends on: soundness survives it if and only if a current item is untainted from the start and nothing current already awaits an invalid or tainted one. |
| Cognition.StepKeepsSoundIff | src/dnc/cognition/state.py:209-387 | Any operation keeps soundness if and only if it changes nothing or meets the condition for its kind. |
| Cognition.RunIsSound | src/dnc/cognition/state.py:209-387 | In every run whose additions meet those conditions, no current item depends on an invalid one. |
| Cognition.RunKeepsLog | src/dnc/cognition/state.py:209-387 | In every run of items, relations, views, invalidations and action transitions that starts without events, the event log explains every action state, along lawful stages. |
| Cognition.ClosedMeansFullTrail | src/dnc/cognition/state.py:79-104 | In every such run, a closed action has passed all ten stages in order. |
| Handoff.IdempotentReceiver.Record | src/dnc/distributed/protocol.py:94-110 | A repeat changes nothing; with a non-decreasing clock the seen identifiers are exactly the last `window_size` recorded ones. |
| Handoff.DuplicateIffInWindow | src/dnc/distributed/protocol.py:90-92 | A message is a duplicate if and only if its identifier is among the last `window_size` recorded. |
| Handoff.DistributedCoordinator.InitiateHandoff | src/dnc/distributed/protocol.py:161-191 | Opens a pending record and participant state and returns the transfer message. |
| Handoff.IdempotentReceiver.GetCachedResult | src/dnc/distributed/protocol.py:112-116 | A result is cached for exactly the duplicates. |
| Handoff.DistributedCoordinator.ReceiveMessage | src/dnc/distributed/protocol.py:193-228 | A duplicate is acknowledged without effect; other kinds than transfer, commit and abort are ignored. A fresh transfer stores exactly its payload, an abort forgets exactly its handoff, a commit changes no participant; the record of the handoff gets the status, and for transfer and commit the time of completion, and no other record changes; the acknowledgement goes back to the sender. Over an ordered clock the applied steps are exactly what the receiver's window lets through of everything that arrived. |
| Handoff.ParticipantHoldsLastPayload | src/dnc/distributed/protocol.py:161-228 | In every state a handoff is held if and only if an initiation or transfer of it was applied and no abort after it, and what is held is the payload of the last one. |
| Handoff.RecordHasLastStatus | src/dnc/distributed/protocol.py:161-228 | In every state the recorded handoffs are those initiated, each with the status its last applied step leaves. |
| Handoff.StateIsLastPayload | src/dnc/distributed/protocol.py:161-228 | The same for every sequence of steps: the participant states by the last initiation, transfer or abort. |
| Handoff.StatusIsLastStep | src/dnc/distributed/protocol.py:161-228 | The same for every sequence of steps: the statuses by the last step about each handoff. |
| Handoff.StateIsExactlyOnce | src/dnc/distributed/protocol.py:193-228 | In every state reached over an ordered clock, if all repeats fell inside the window, records and participant states are those of applying each message once, at its first occurrence. |
| Handoff.DeliveredOnceIff | src/dnc/distributed/protocol.py:193-228 | For every trace of initiations and arrivals, the coordinator applies exactly the first occurrences if and only if every repeat falls inside the window. |
| Handoff.LateRepeatResurrects | src/dnc/distributed/protocol.py:105-110 | Concrete run outside the window: a repeated transfer brings an aborted handoff back as committed. |
| Handoff.ExactlyOnceIffRepeatsInWindow | src/dnc/distributed/protocol.py:94-110 | On the arrivals alone: what is let through equals the first occurrences if and only if every repeat falls inside the window. |
| Handoff.LateRepeatIsReprocessed | src/dnc/distributed/protocol.py:105-110 | The first repeat outside the window is applied again. |
| Handoff.AbortedHoldsNothingAlways | src/dnc/distributed/protocol.py:161-276 | In every reachable state an aborted handoff holds no participant state. |
| Handoff.CommittedHoldsIff | src/dnc/distributed/protocol.py:217-220 | One step keeps "a committed handoff holds its state" if and only if it is not a COMMIT for a known handoff without participant state. |
| Handoff.CommitAfterAbort | src/dnc/distributed/protocol.py:217-228 | Concrete run, whatever the window: three different messages, transfer, abort and commit, are all applied and leave a committed handoff without state. |
| Controller.Select | src/dnc/control/controller.py:32-74 | Inputs equal rejections plus survivors in number; the survivors are the undominated authorized first-comers; the selected one is chosen over every other survivor by the chain of tie-breaks from safety risk to identifier, and the alternatives follow in that order; every duplicate, refusal and pruning is reported under its identifier with the objections that hold; the shadow log holds exactly the shadow predictions. |
| Controller.ValidateAndDeduplicate | src/dnc/control/controller.py:98-123 | Keeps exactly the candidates that share neither identifier nor meaning with one kept before, and rejects every other one under its own identifier, in order. |
| Controller.FirstComersSpec | src/dnc/control/controller.py:98-123 | The kept candidates are pairwise distinct, and every input clashes with a kept one. |
| Controller.FilterAuthorizedSpec | src/dnc/control/controller.py:36-41 | What passes authorization is exactly the authorized candidates, still pairwise distinct. |
| Controller.PermissiveKeepsAuthorized | src/dnc/control/controller.py:126-153 | A context that allows more gives no candidate a new reason, and narrowing what it authorizes to the stricter context gives exactly what that one authorizes. |
| Controller.PrunedIsDominatedBySurvivor | src/dnc/control/controller.py:156-168 | Every pruned candidate is dominated by some survivor. |
| Controller.DominanceTransitive | src/dnc/control/controller.py:163-184 | Domination is transitive. |
| Controller.CandidateOrder | src/dnc/control/controller.py:187-200 | The lexicographic key is a total preorder on candidates. |
| Controller.KeyOrderIsChosenOver | src/dnc/control/controller.py:187-200 | The lexicographic key orders candidates by safety risk, then privacy risk, epistemic risk plus uncertainty, side effect, reversibility (greater first), total gain (greater first), monetary cost, compute cost, latency and identifier. |
| Controller.ReasonsAreObjections | src/dnc/control/controller.py:126-153 | The reasons given against a candidate are exactly the objections that hold: each limit of the context exceeded, each rule not met. |
| Controller.SelectedIsLeastIff | src/dnc/control/controller.py:42-43 | In every list of different candidates, the selected one is the least of all authorized ones if and only if nothing dominates the least of them. |
| Controller.SelectionProperties | src/dnc/control/controller.py:42-64 | Candidates survive pruning if any is authorized; the selected one is the least undominated, and least of all authorized ones exactly under that condition, which equal uncertainties guarantee. |
| Controller.DominanceAgreesWithKeyIff | src/dnc/control/controller.py:163-200 | Of two candidates, the dominating one comes first in the key order if and only if its safety or privacy risk is strictly smaller, or its epistemic risk plus uncertainty is no greater. |
| Controller.DominanceMeansEarlier | src/dnc/control/controller.py:163-200 | With equal uncertainties a dominating candidate comes strictly first. |
| Controller.UncertainSurvivor | src/dnc/control/controller.py:156-200 | Two candidates without that condition: pruning removes the one the key order would have chosen. |
| Controller.Rank | src/dnc/control/controller.py:44-64 | The alternatives are the other authorized candidates, each once, in key order. |
| Controller.AuthorizeLifecycle | src/dnc/control/controller.py:76-95 | Without a selection nothing changes; otherwise it succeeds exactly from AUTHORIZED, or with a non-empty identifier from the states before it, ends there, touches no other action, and keeps the log explaining the states. |
| Adapters.RateLimiter.Acquire | src/dnc/capabilities/adapters.py:71-81 | Refuses exactly when no request is allowed or the current window is full, and counts what it grants. |
| Adapters.GrantsPerWindow | src/dnc/capabilities/adapters.py:71-81 | In every run with a non-decreasing clock, no window holds more than `requests_per_minute` grants. |
| Adapters.GrantsInAnyMinute | src/dnc/capabilities/adapters.py:71-81 | No half-open minute, wherever it starts, holds more than twice that many. |
| Adapters.BurstAcrossBoundary | src/dnc/capabilities/adapters.py:71-81 | Twice is attained, by a run for every limit. |
| Adapters.CircuitBreaker.Allow | src/dnc/capabilities/adapters.py:45-53 | Refuses exactly while open and before the recovery timeout; recovery resets the failure count. |
| Adapters.CircuitBreaker.RecordFailure | src/dnc/capabilities/adapters.py:59-62 | Counts the failure; the breaker is open if and only if the failures in a row reach the threshold. |
| Adapters.ProviderAdapter.Retry | src/dnc/capabilities/adapters.py:118-164 | Against every provider behaviour: succeeds if and only if the first attempt that is not retried returns valid output, uses exactly the attempts up to it, reports its code, and leaves the breaker with the matching failure count. |
| Adapters.ProviderAdapter.Execute | src/dnc/capabilities/adapters.py:91-164 | Answers CIRCUIT_OPEN exactly while the breaker refuses and RATE_LIMITED exactly when it allows and the limiter refuses, without attempt or grant; otherwise takes one grant and answers, and leaves the failure count, as the retry loop does. |
| SemVer.PrintThenParse | src/dnc/kernel/versioning.py:32-42 | Parsing a printed version gives it back. |
| SemVer.ParseThenPrint | src/dnc/kernel/versioning.py:32-42 | Every accepted string is printed back exactly. |
| SemVer.AcceptedIffVersionCore | src/dnc/kernel/versioning.py:21-42 | The accepted strings are exactly the version cores of section 2 of Semantic Versioning 2.0.0: three numerals without leading zeros, joined by dots. |
| SemVer.ParseInjective | src/dnc/kernel/versioning.py:36-42 | Different strings never denote the same version. |
| KnowledgeBase.KnowledgeBase.Commit | src/dnc/learning/continual.py:66-75 | The version number grows by one; the contents are stored under it and stay as they were, and no other stored version changes. |
| KnowledgeBase.KnowledgeBase.RollbackTo | src/dnc/learning/continual.py:83-89 | Restores a stored version, or fails without change. |
| KnowledgeBase.RunIsContiguous | src/dnc/learning/continual.py:66-89 | In every run of edits, commits and rollbacks the stored versions are numbered 1 to n without gaps and the current one is among them. |
| KnowledgeBase.CommitPreservesIff | src/dnc/learning/continual.py:66-89 | In every reachable state a commit leaves all stored versions as they were if and only if the current version is the newest, or the next one already holds the same contents. |
| KnowledgeBase.CommitOverwritesAfterRollback | src/dnc/learning/continual.py:66-89 | Concrete run: a commit after a rollback overwrites the later version. |
| KnowledgeBase.IdentifyViolatingVersion | src/dnc/learning/continual.py:468-500 | For every oracle: at most as many probes as the list length has binary digits; the found version violates and its predecessor in the list does not, or the last version is clean; exactly where the knowledge base is left, and every failure. |
| KnowledgeBase.BitsIsLog2 | src/dnc/learning/continual.py:479-494 | That number of probes is floor(log2 n) + 1. |
| KnowledgeBase.BoundaryIsEarliest | src/dnc/learning/continual.py:479-494 | When violation is monotone along the list, the boundary found is the earliest violating position, and conversely. |
| KnowledgeBase.CleanLastMeansNone | src/dnc/learning/continual.py:479-494 | When violation is monotone, a clean last version means that none violates. |
| KnowledgeBase.TargetIsNewestCleanIff | src/dnc/learning/continual.py:496-498 | On consecutive versions the rollback target is the newest clean one if and only if the first of the list is clean; for version 1 the target is the violating version itself. |
| KnowledgeBase.RestoreNewestClean | src/dnc/learning/continual.py:468-500 | A consecutive stored list that starts clean leaves the knowledge base at its newest clean version. |
| RollbackBreaker.RollbackCircuitBreaker.RecordRollback | src/dnc/learning/continual.py:354-361 | With ordered clock readings the list after cleanup is the whole rollback history filtered to the last window. |
| RollbackBreaker.RollbackCircuitBreaker.CanCommit | src/dnc/learning/continual.py:363-367 | Commits are allowed at t if and only if t is more than a window after the suspension of every rollback that came within a window of the third before it. |
| RollbackBreaker.RollbackCircuitBreaker.RollbackCountInWindow | src/dnc/learning/continual.py:392-395 | The number of rollbacks of the whole history less than a window old. |
| RollbackBreaker.LaterTwice | src/dnc/learning/continual.py:369-373 | Filtering by an earlier cutoff first does not change what a later one leaves. |
| RollbackBreaker.FlagAtLaterTime | src/dnc/learning/continual.py:363-367 | However time passes, the suspension flag agrees with the history. |
| RollbackBreaker.AllowedMeansCalmWindow | src/dnc/learning/continual.py:354-373 | When commits are allowed, no rollback of the last window was the fourth of its own. |
| RollbackBreaker.BlockedIffFourInWindow | src/dnc/learning/continual.py:354-367 | Commits are blocked if and only if some rollback with the third before it inside its window happened less than a window ago. |
| RulePolicy.RulePolicy.Decide | src/dnc/execution/decision_policy.py:132-188 | Each decision is the one its situation and the decisions before it call for, and is recorded with the reason and the alternatives. |
| RulePolicy.ReplansBounded | src/dnc/execution/decision_policy.py:162-188 | In every run without reset there are at most `max_replans` replans. |
| RulePolicy.CriticalAndLimit | src/dnc/execution/decision_policy.py:162-188 | Never a replan in a critical section; after the limit every other decision is TERMINATE. |
| RulePolicy.LimitStays | src/dnc/execution/decision_policy.py:152-170 | Once reached, the limit stays reached. |
| RulePolicy.ReplansSpaced | src/dnc/execution/decision_policy.py:225-238 | With non-negative steps any two replans are at least the cooldown times their distance apart, however the step counter moves. |
| RulePolicy.ReasonAccountsIff | src/dnc/execution/decision_policy.py:210-223 | The recorded reason accounts for the decision if and only if the case is not an exhausted budget whose replan the cooldown forbids. |
| Skills.SkillRegistry.Transition | src/dnc/memory/skills.py:60-87 | Every error in its order, otherwise the exact new registry. |
| Skills.TransitionFailsIff | src/dnc/memory/skills.py:60-75 | Each error exactly: an unknown version, a stage that is neither the next one nor a withdrawal, EVALUATED without an evaluation, SHADOW, CANARY or ACTIVE without a promotable one. |
| Skills.TransitionEffect | src/dnc/memory/skills.py:60-87 | What a transition leaves at each key: the version in the new stage, stamped with its evaluation on EVALUATED; on ACTIVE the other active versions of the skill and tenant rolled back; the rest unchanged. |
| Skills.RollbackEffect | src/dnc/memory/skills.py:114-124 | What a rollback leaves at each key: the version rolled back, its parent active if known and qualified, the rest unchanged. |
| Skills.InvalidationEffect | src/dnc/memory/skills.py:104-112 | What drift leaves at each key: QUARANTINED if a dependency changed and the version is neither retired nor rolled back, otherwise unchanged. |
| Skills.SkillRegistry.DemoteOthers | src/dnc/memory/skills.py:76-84 | Demotes exactly the other active versions of the same skill and tenant. |
| Skills.SkillRegistry.Rollback | src/dnc/memory/skills.py:114-124 | Withdraws the version and restores its parent; a missing or unqualified parent is reported after the version has been withdrawn. |
| Skills.SkillRegistry.Invalidate | src/dnc/memory/skills.py:104-112 | Quarantines exactly the live versions with a changed dependency, and returns them. |
| Skills.SkillRegistry.RecordEvaluation | src/dnc/memory/skills.py:89-92 | Accepts exactly evaluations of a known fingerprint. |
| Skills.RollbackKeepsUniqueIff | src/dnc/memory/skills.py:114-124 | A rollback keeps at most one version active if and only if no third version of the parent's skill and tenant is active. |
| Skills.RollbackOfActiveIsSafe | src/dnc/memory/skills.py:114-124 | Rolling back the active version to a parent of the same tenant meets that condition. |
| Skills.TransitionKeepsUnique | src/dnc/memory/skills.py:60-87 | Every transition keeps at most one version active per skill and tenant. |
| Skills.AtMostOneActive | src/dnc/memory/skills.py:51-124 | In every run that registers inactive versions and rolls back only safely, at most one version per skill and tenant is active. |
| Skills.OneVersionPerSkill | src/dnc/memory/skills.py:94-102 | In such a run, an agent is offered at most one version of each skill. |
| Skills.VisitsAreOrderly | src/dnc/memory/skills.py:60-124 | In every run that registers drafts, each version's stages follow on from one another, and SHADOW, CANARY and ACTIVE are entered on a promotable evaluation. |
| Skills.EveryStageInOrder | src/dnc/memory/skills.py:10-16 | A stage of the chain is only ever found at its own place, after all the stages before it. |
| Skills.PromotedThroughEveryStage | src/dnc/memory/skills.py:60-87 | A version a transition makes ACTIVE has passed every earlier stage in order, qualified at SHADOW, at CANARY and at the promotion. |
| Snapshots.AssessReplayAdmission | src/dnc/execution/snapshot.py:228-299 | Admits if and only if no reason stands against the grade, and returns exactly the reasons that do. |
| Snapshots.AdmittedBelow | src/dnc/execution/snapshot.py:228-299 | A snapshot admitted at one grade is admitted at every lower one. |
| Snapshots.CaptureRecordedExecution | src/dnc/execution/snapshot.py:619-672 | Its own admission check never fails; the capture is admitted at a grade if and only if that is at most R3, restores to the captured graph, and asks for cleanup if and only if an effect is open. |
| Snapshots.RecordedCaptureAdmittedIff | src/dnc/execution/snapshot.py:635-672 | A recorded capture is admitted exactly up to R3. |
| Snapshots.GraphCaptureAdmittedIff | src/dnc/execution/snapshot.py:583-617 | A graph capture is admitted exactly up to R2 and restores to the captured graph. |
| Snapshots.CoreAdmissibleIffRestorable | src/dnc/execution/snapshot.py:228-257 | Admitted as a deterministic core if and only if the graph can be restored and the manifest declares identity, grade and captured graph. |
| Snapshots.RecordedAdmissibleIff | src/dnc/execution/snapshot.py:258-287 | Admitted as a recorded execution if and only if admitted as a deterministic core, declared at R3 or above, and the external evidence is whole: schema 0.2.0, the same identifiers as often, both hashes, the declarations, nothing external uncaptured, isolation at least I3. |
| Snapshots.EnvironmentAdmissibleIff | src/dnc/execution/snapshot.py:288-299 | Admitted as an environment replay if and only if admitted as a recorded execution, declared at R4, nothing uncaptured, the environment captured, and sandboxed. |
| Snapshots.CoreReasonsSay | src/dnc/execution/snapshot.py:237-257 | Identity, graph and runtime reasons, each in terms of the evidence. |
| Snapshots.EvidenceReasonsSay | src/dnc/execution/snapshot.py:258-272 | Schema, identifier and hash reasons, identifiers compared as multisets. |
| Snapshots.DeclarationReasonsSay | src/dnc/execution/snapshot.py:273-287 | Declaration and isolation reasons, each in terms of the manifest. |
| Snapshots.WhenReasonsCount | src/dnc/execution/snapshot.py:228-299 | From which grade on each group of reasons counts. |
| Snapshots.RestoreIsFaithful | src/dnc/execution/snapshot.py:674-689 | Whatever a snapshot holds, if its manifest was made for a graph and restoring succeeds, the result is that graph up to edge order, short of a hash collision. |
| Snapshots.RecordedEvidenceIntact | src/dnc/execution/snapshot.py:258-272 | An admitted recorded execution holds the recordings and effects its manifest was made for, short of a hash collision. |
| Snapshots.CaptureReconciled | src/dnc/execution/snapshot.py:448-454 | A capture of a reconciled ledger is admitted at R3 and needs no cleanup. |
| Effects.EffectLedger.Add | src/dnc/execution/snapshot.py:404-408 | Rejects exactly a conflicting entry, without change. |
| Effects.EffectLedger.Compensate | src/dnc/execution/snapshot.py:420-439 | Fails on an unknown effect, then on an empty cleanup identifier, without change; otherwise the effect names its cleanup, and the cleanup is a committed, irreversible effect on the same target that names what it compensates; a cleanup identifier equal to the effect's own leaves the cleanup there; nothing else changes. |
| Effects.EffectLedger.All | src/dnc/execution/snapshot.py:441-442 | Lists every entry once, in the order of the identifiers. |
| Effects.EffectLedger.Reconcile | src/dnc/execution/snapshot.py:448-454 | Never fails, whatever the ledger holds, and leaves no effect open. |
| Effects.NothingLeftOpen | src/dnc/execution/snapshot.py:413-454 | Compensating closes every effect of the list and opens none. |
| Effects.ReconcileTwice | src/dnc/execution/snapshot.py:448-454 | A second reconciliation changes nothing. |
| Effects.NothingLostIff | src/dnc/execution/snapshot.py:420-454 | For every ledger, reconciling loses no entry if and only if no cleanup identifier is taken by anything but that very cleanup record. |
| Effects.OneCleanupEach | src/dnc/execution/snapshot.py:420-454 | Without such a collision there is exactly one new entry for each open effect, its cleanup record. |
| Halting.Status | src/dnc/halting/policy.py:18-38 | The loop computes the totals and lists exactly the broken single-attempt limits; exhausted if and only if a cap is reached or an attempt is oversized. |
| Halting.Decide | src/dnc/halting/policy.py:42-225 | The choice with the budget status it was taken on, the threshold and lower bound exactly when they were compared, the clusters exactly when they were formed, and the available alternatives of the adaptive policy. |
| Halting.AddsOnlyWithinBudget | src/dnc/halting/policy.py:42-192 | No policy asks for SAMPLE or DIVERSIFY once the budget is exhausted. |
| Halting.RunStaysWithinBudget | src/dnc/halting/policy.py:18-192 | Any run that adds attempts only on SAMPLE or DIVERSIFY makes at most `max_attempts`, its total tokens, cost and time each stay below the cap plus the last attempt's own usage, and only the last attempt can be oversized. |
| Halting.ExhaustionIsPermanent | src/dnc/halting/policy.py:18-38 | An exhausted budget stays exhausted whatever is added. |
| Halting.StopsOnlyWhenChecked | src/dnc/halting/policy.py:42-192 | Every STOP has its mandatory checks, output contract and calibrated confidence; the fixed policies also have no contradiction and no missing information. |
| Halting.AdaptiveAbstainsIff | src/dnc/halting/policy.py:112-133 | When the adaptive policy abstains, exactly. |
| Halting.AdaptiveOrder | src/dnc/halting/policy.py:112-157 | Ambiguity, missing information and contradictions are met in that order by asking, retrieving and verifying, then a calibration shift, then an exhausted budget, then too few independent groups by diversifying. |
| Halting.FallThroughIs | src/dnc/halting/policy.py:159-214 | An adaptive policy that may not stop verifies if its confidence is not calibrated and verifying is available, otherwise takes the most worthwhile action available, the later name on ties, and samples if there is none. |
| Halting.AdaptiveFailsIff | src/dnc/halting/policy.py:112-135 | The adaptive policy fails exactly when it would consult thresholds of another domain or without the risk class. |
| Halting.AdaptiveStopSurvivesIff | src/dnc/halting/policy.py:123-128 | An adaptive STOP survives new contradictions, gaps or ambiguities if and only if the actions that would resolve them are unavailable. |
| Halting.UnavailableSampleIff | src/dnc/halting/policy.py:176-192 | The adaptive policy asks for an unavailable SAMPLE if and only if it falls through with nothing available but stopping and abstaining. |
| Halting.BestIsGreatest | src/dnc/halting/policy.py:195-214 | The best next action is the available one of greatest net value, the name deciding between equals. |

## Left out

- Rounding: floating-point numbers are real numbers throughout, so nothing is said about
  rounding, infinities or NaN.
- Error and warning texts: errors are codes.
- Log loss, temperature and logistic fitting, bootstrap intervals, population shift and the
  artifact registry of the calibration module: they need transcendental functions or randomness,
  or are guarded dictionaries.
- JSON text, SHA-256, UUIDs and clocks: documents are values; hashes, fresh identifiers and clock
  readings are parameters.
- Documents whose unchecked fields hold values of the wrong type (a string where an array is
  expected, a non-mapping contract or a non-string port in a legacy document) are rejected by the
  model although Python may accept or convert them.
- The parser reads units in the order of their identifiers instead of document order; the units
  are a map, so only the insertion order of identifiers could differ.
- Constraint, schema, limit and metadata payloads are unexamined JSON values. Only the supported
  schema versions are recognised in a header, which makes the semantic-version check of the header
  redundant.
- Execution-context validation and conformance levels of the validator
  (`src/dnc/ir/validator.py:173-257`, `src/dnc/ir/validator.py:378-396`): guards of one line each.
- Evidence, and the hypothesis, task and outcome lifecycles of the cognitive state: the same shape as the
  action lifecycle, with smaller tables.
- The rejected transfer of the handoff protocol (`src/dnc/distributed/protocol.py:212-215`): nothing
  inside the guarded block can raise once identifiers are strings.
- The audit hash of a controller decision, and its message texts.
- Provider calls, threads, streaming and usage counts of the adapters: a provider is an oracle that
  says what each attempt does. Feature checks, an up-front cancellation, an unsupported action and
  an adapter without a rate limiter return or skip before the modelled part.
- Drift checking, the learning verification protocol and update generation: placeholder metrics.
  `rollback_to_root_cause` only repeats the rollback target of the bisection.
- The oracle of the bisection is a function of the snapshot; one that edits the knowledge base or
  the snapshot it is shown is not covered.
- Registry snapshots, the sorted order of active skills and of invalidated labels, and skill
  induction.
- Clustering of attempts (text similarity) is a function parameter; attempts with an empty
  conclusion, which it refuses, are not covered.
- Sandbox policies, shared-state audits, idempotency and replay stores, deadlines and cancellation
  tokens of the snapshot module: guarded dictionaries and single tests.
- Handoff.DistributedCoordinator.InitiateHandoff: identifiers are given by the caller, so that a
  repeated handoff identifier, which UUIDs make unlikely, overwrites the earlier record.
- Validator.ValidateGraph: says which errors and warnings are reported and where, not their order or
  how often a repeated fault is listed, because every consumer asks only whether and what.
- Snapshots.AssessReplayAdmission: says which reasons are returned, not their order, for the same
  reason.
- Halting.Decide: says which alternatives are listed, not their order, for the same reason.
- Everything outside these files: the system composition, mutation engine, persistence, command
  line, campaigns and reports.
