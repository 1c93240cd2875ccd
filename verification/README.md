# The control plane of mini-orchestrator, verified

The control plane keeps nodes, services and workloads in three PostgreSQL tables. One goroutine runs
reconcile cycles over them; the API, the health checker and the autoscaler write node and service rows
beside it. This project models the tables, the loops and the policies, and proves what they keep.

| file | models |
|---|---|
| `Model.dfy`, `Tables.dfy` | the rows; listing, counting and summing the workload table |
| `Ledger.dfy` | node and workload tables as a state machine, one event per SQL transaction |
| `Store.dfy` | the tables as a class with one method per transaction, tied to the ledger by a ghost log |
| `Services.dfy` | the service statements, and a service whose updates overtake a running cycle |
| `Placement.dfy`, `Execution.dfy` | scheduler, executor, and the two loops that walk listings while rows change |
| `Replicas.dfy`, `Rollout.dfy`, `RolloutRuns.dfy` | replica and deployment controllers, and whole rollouts |
| `Drift.dfy`, `Nodes.dfy` | runtime repair, and the node phase of a cycle |
| `Deletion.dfy`, `Cycle.dfy` | deletion and status controllers, and one full cycle |
| `Progress.dfy` | consecutive cycles as a rollout |
| `Policy.dfy`, `Autoscaler.dfy` | autoscaling arithmetic and rate limits, and the autoscaler with its window |
| `Validation.dfy` | the API's checks, and what later updates do to them |

## How the model is built

- **The store and its log.** `Store.Postgres` holds the tables as fields; each transaction is one method that
  either applies or changes nothing. Its contract says that the tables moved by exactly one ledger event and
  that the ghost log grew by it. `Valid()` says that the tables are what the log makes of a sound start and
  that every logged event was lawful (issued in a row state in which the code issues it). Lawfulness is
  discharged in every loop, so `Ledger`'s theorems over all lawful runs hold of the tables at all times.
- **Nondeterminism.** Node agents may fail any request; `NodeClient.reliable` marks the assumption that they
  do not. `Store.Postgres.Interfere` is an arbitrary run of registrations and node status writes by others.
  The loops call it between what they read and what they write.
- **Requests to node agents.** `NodeClient` records every request and its answer in a ghost trace. The loops say
  which stretch of the trace belongs to which listed row, container or node, and between which moments of the
  log its turn lies. What a refused request means for the others is therefore stated, not left open.
- **Specification functions.** Methods are specified by functions such as `Ledger.Step`, `WithSpec` or `Proposal`.
  What those functions mean is stated beside them over the columns of the rows (`Ledger.ReserveWrites`,
  `Services.VerdictExactly`, `Tables.GroupsByColumns`, `Policy.ProposalExactly`); for the plain writes there are
  `Ledger.CreateWrites`, `StateWrites`, `Services.ColumnsWrite`, `StatusWrites` and `Validation.EditWrites`.
- **Listing order.** The controllers insert workloads with the zero `created_at`, so `ORDER BY created_at`
  (internal/store/workload.go:129) leaves the order of a listing open. A listing is any duplicate-free
  enumeration, and results hold for each of them.
- **The `held` bit** of a workload row is auxiliary: set by a reservation, cleared by a release or a recovery.
  No decision reads it.
- **Time** is in nanoseconds, CPU targets and scores are exact numbers, identifiers are natural numbers.

Three edges break the equality of allocations and in-use requests: stopping a row that is already FAILED
releases it a second time (internal/reconciler/executor.go:100-149), failing a row that was marked STOPPED
likewise, as often as the two alternate (`Ledger.ReleaseRepeats`), and marking a row STOPPED (or reviving one)
without touching the node (internal/reconciler/runtime_reconciler.go:79,97) leaks or invents a charge. They stay
in the model;
`Ledger.StepExact` says exactly when a transaction keeps the equality, `Ledger.DoubleReleaseIsReachable` and
`Ledger.LeakIsReachable` give lawful runs that lose it, `Ledger.OvercommitIsReachable` one that ends with more in
use on a node than it has, and `Ledger.RunSafe` holds regardless, of the allocations on the books. The
equality counts PENDING, SCHEDULED and RUNNING rows on a node, including those asked to stop: they are charged
until they have stopped. The repository's own check (internal/reconciler/multinode_integration_test.go:957-999)
looks at settled clusters, where there are none of those.

Other findings:

- Recovery of a lost node also forgets stop requests (`Ledger.RecoverLosesNothing`): a workload that was asked
  to stop becomes pending again.
- A status verdict computed from an old copy of a service is written over the PROGRESSING of a version that
  overtook the cycle. An AVAILABLE may hit a version of which nothing exists
  (`Services.VerdictMayHitNextVersion`); a FAILED ends a version that has just started, for good
  (`Services.StaleFailureEndsNextVersion`). `Services.AvailableIsRight` and `Services.FailedIsRight` say exactly
  when such a verdict is right.
- A node agent that reports a container of a workload on another, unhealthy node as alive lets the runtime
  reconciler revive a finished row there (`Ledger.ReviveIsReachable`). Agents that share a Docker daemon do so
  (internal/runtime/docker.go:216-224). It is the one way to put work on such a node
  (`Ledger.StepKeepsVacant`).
- The update handler assigns surge and slack limits (internal/api/handlers.go:437-438), but the statement does
  not write those columns (internal/store/service.go:145-177). The model follows the statement. Together with
  an update path that does not repeat the check on the limits, this lets two accepted updates reach a rollout
  that never moves (`Validation.GapLeadsToStuckRollout`). The controller acts on every rollout that is due, for
  good, exactly if the service was created with surge or slack (`Validation.CheckHoldsForGoodIff`).
- A workload that was asked to stop and whose container is still listed is toggled by every repair of its node:
  STOPPED, then FAILED with a release, then STOPPED again (`Drift.RepairTwice`, `Ledger.ReleaseRepeats`).
- Creation accepts a negative `replicas` when `desired_replicas` is not negative (`Validation.AdmitsExactly`).

## Model

| member | source | states |
|---|---|---|
| Store.Postgres.CreatePendingWorkload | internal/store/workload.go:298-308 | inserts an unassigned PENDING row, or fails on a taken id |
| Store.Postgres.ReserveNodeForWorkload | internal/store/workload.go:172-296 | charges a READY node with room and assigns the row in one step, or changes nothing |
| Store.Postgres.MarkWorkloadRunning | internal/store/workload.go:310-343 | records the container of a row whose desired state is SCHEDULED, or fails |
| Store.Postgres.MarkWorkloadFailedAndReleaseResources | internal/store/workload.go:436-519 | releases and fails a row at most once; fails without effect when its node is gone |
| Store.Postgres.MarkWorkloadStoppedAndReleaseResources | internal/store/workload.go:644-737 | releases and stops a row; a STOPPED row is left as it is |
| Store.Postgres.RecoverWorkloadsFromNode | internal/store/workload.go:521-619 | resets exactly the in-use rows of the node and zeroes its allocation |
| Store.ResetRowsOn | internal/store/workload.go:546-598 | the row-by-row loop resets exactly the selected rows |
| Store.Postgres.UpdateWorkloadDesiredState | internal/store/workload.go:621-642 | only the desired state of the row moves; a missing row is no error |
| Store.Postgres.UpdateWorkloadActualState | internal/store/workload.go:413-434 | only the actual state moves, no node is charged or credited |
| Store.Postgres.ListWorkloadsByService | internal/store/workload.go:107-170 | every row of the service exactly once, in some order |
| Store.Postgres.ListWorkloadsByNode | internal/store/workload.go:739-810 | every row of the node exactly once, in some order |
| Store.Postgres.GetWorkloadByContainerID | internal/store/workload.go:366-411 | a row with the container, or proof that there is none |
| Store.Postgres.ListNodes | internal/store/nodes.go:97-155 | every node once, in ascending id order |
| Store.Postgres.GetNode | internal/store/nodes.go:51-95 | the node row, or none |
| Store.Postgres.RegisterNode | internal/store/nodes.go:12-49 | re-registration changes capacity and status and keeps the allocation |
| Store.Postgres.SetStatus | internal/store/nodes.go:157-229 | changes the status of an existing node only |
| Store.Postgres.TablesSound | internal/store/workload.go:298-342 | any tables the components leave behind satisfy the row lifecycle |
| Store.Postgres.ListServices | internal/store/service.go:194-269 | every service exactly once, in order of creation |
| Store.Postgres.CreateService | internal/store/service.go:11-75 | a taken id is refused, otherwise the row is stored as given |
| Store.Postgres.UpdateService | internal/store/service.go:145-192 | limits stay; version, status and start time move only with a different image |
| Store.Postgres.UpdateDeploymentStatus | internal/store/service.go:299-323 | overwrites the status whatever version the row has reached |
| Store.Postgres.UpdateDesiredReplicas | internal/store/service.go:325-350 | sets count and scaling time together; a negative count is refused |
| Store.Postgres.MarkServiceDeleting | internal/store/service.go:352-390 | ACTIVE becomes DELETING; DELETING is accepted again |
| Store.Postgres.MarkServiceDeleted | internal/store/service.go:392-418 | only DELETING becomes DELETED |
| Ledger.RunSound | internal/store/workload.go:298-342 | lifecycle of every row of every reachable table: desired, actual, node and container states fit together; no two rows share a container |
| Ledger.ReserveWrites | internal/store/workload.go:172-296 | column by column: exactly on a READY node with the room are both requests charged and the row assigned to it; nothing otherwise |
| Ledger.MarkRunningWrites | internal/store/workload.go:310-343 | column by column: exactly a row to be SCHEDULED gets the container and RUNNING |
| Ledger.ReleaseWrites | internal/store/workload.go:436-519 | column by column: both requests go back to the row's node, once per entry into FAILED or STOPPED, and never below zero |
| Ledger.RecoverWrites | internal/store/workload.go:521-619 | column by column: the node has nothing allocated and keeps capacities and status; its in-use rows are unassigned and PENDING, all other rows keep every column |
| Ledger.NodeWrites | internal/store/nodes.go:12-49 | column by column: a registration sets both capacities and the status, keeps what is allocated, and starts a new node at nothing; a heartbeat sets the status of a known node |
| Ledger.StepExact | internal/store/workload.go:436-519 | a lawful transaction keeps allocations equal to the sums of in-use requests if and only if the row it finds passes a guard checkable beforehand |
| Ledger.RunExact | internal/store/workload.go:172-296 | over any run of guarded transactions every node's allocation equals the sum of its in-use requests |
| Ledger.RunNeverClamps | internal/store/workload.go:481-482 | along such runs a release of an in-use row never hits the zero clamp |
| Ledger.RunSafe | internal/store/workload.go:221-244 | in every state reached by registrations that keep room for what is allocated, allocations stay within capacity and within what still-held rows asked for, over-releases included |
| Ledger.NeverOvercommitted | internal/store/workload.go:221-244 | along clean runs whose registrations keep room, in-use requests on a node never exceed its capacity |
| Ledger.OvercommitIsReachable | internal/reconciler/executor.go:92-157 | a lawful run that is not clean ends with in-use requests above the capacity of a node whose allocation looks right |
| Ledger.ChargedOncePerAssignment | internal/store/workload.go:172-296 | between two charges of one workload lies a recovery that took its assignment back |
| Ledger.RecoverLosesNothing | internal/store/workload.go:521-619 | recovery keeps the set of in-use workloads, vacates the node, touches no other node, and revives exactly the stop-requested ones |
| Ledger.RunKeepsVacant | internal/scheduler/filters.go:13-16 | while a vacated node is not READY it has no work at any moment, if and only if no finished row on it is revived; heartbeats and registrations are free |
| Ledger.StepKeepsVacant | internal/scheduler/filters.go:13-16 | a lawful transaction puts work on a vacant node that is not READY if and only if it revives a finished row there |
| Ledger.ReviveIsReachable | internal/reconciler/runtime_reconciler.go:83-99 | a lawful run revives a failed row on an UNHEALTHY node after its recovery |
| Ledger.SteadyNodes | internal/store/nodes.go:12-49 | writes that keep statuses keep every status, and leave a new node that is not READY without rows |
| Ledger.DoubleReleaseIsReachable | internal/reconciler/executor.go:92-157 | a lawful run ends with an in-use workload on a node that has nothing allocated |
| Ledger.ReleaseRepeats | internal/reconciler/runtime_reconciler.go:63-92 | any number of fail-and-stop rounds on a stopped row whose container is still there is lawful, leaves the rows and takes the request off the node each time |
| Ledger.LeakIsReachable | internal/reconciler/runtime_reconciler.go:65-86 | a lawful run ends with an allocation that no in-use workload accounts for |
| Tables.ListingCounts | internal/controller/replica_controller.go:113-137 | counting along any listing counts the table, whatever the order |
| Tables.SumAfterWrite | internal/store/workload.go:246-289 | overwriting one row moves a node's sum by the difference of the two charges |
| Tables.GroupsByColumns | internal/controller/deployment_controller.go:116-175 | what is counted as active, older, newer, running and failed, column by column; the replica controller also counts version 0 |
| Services.VersionsStayCoherent | internal/store/service.go:145-177 | over all interleavings of updates with cycles on older copies, equal versions have equal images and none exceeds the service's |
| Services.SpecWrites | internal/store/service.go:145-177 | every column after an update: limits, settings and timestamps stay, a different image starts the next version as PROGRESSING now |
| Services.VerdictExactly | internal/controller/deployment_status.go:28-139 | the verdict over the columns of the rows: AVAILABLE if as many current workloads run as are desired and no older one is active, otherwise FAILED if a current one failed or more than the timeout has passed, otherwise PROGRESSING; none on FAILED |
| Services.DeletedOnceFinished | internal/controller/deletion_controller.go:33-63 | over every interleaving the status never goes back, and a service that became DELETED was DELETING with nothing in use when that was written |
| Services.FailureIsFinal | internal/controller/deployment_status.go:28-40 | over every run without a different image or a deletion an ACTIVE service stays FAILED, no workload is created and none is newly asked to stop |
| Services.FailureEndsByImage | internal/store/service.go:145-177 | a step ends the FAILED of an ACTIVE service if and only if it is an update to a different image |
| Services.VerdictMayHitNextVersion | internal/controller/deployment_status.go:75-93 | a stale verdict marks a version AVAILABLE of which no workload exists |
| Services.AvailableIsRight | internal/controller/deployment_status.go:75-93 | when a verdict on an older copy holds for the service itself, if and only if |
| Services.StaleFailureEndsNextVersion | internal/controller/deployment_status.go:95-132 | a stale verdict fails a version that has just started, after which none of its workloads is ever created without another image |
| Services.FailedIsRight | internal/controller/deployment_status.go:95-132 | when a FAILED verdict on an older copy holds for the service itself, if and only if |
| Placement.FilterNodes | internal/scheduler/filters.go:7-33 | exactly the READY nodes with room for both resources, in order |
| Placement.SelectBestNode | internal/scheduler/scoring.go:9-51 | the first node with the least sum of occupied CPU and memory shares once the workload is on it |
| Placement.Schedule | internal/scheduler/scheduler.go:15-29 | a node is chosen if and only if one suits; the one with the least sum of occupied shares, smallest id among ties |
| Placement.ScoreIsOccupation | internal/scheduler/scoring.go:28-51 | the higher score is the lower sum of occupied shares |
| Placement.RoomierIsNotPassedOver | internal/scheduler/scoring.go:28-51 | among suitable nodes of equal capacities one with less of one resource allocated, and no more of the other, is never passed over |
| Placement.ScheduleWorkload | internal/scheduler/service.go:27-71 | placed on the best node of the one reading, or not at all if none suited or that one no longer does; with no more than heartbeats in between, placed if and only if some node suits; otherwise nothing is half-done |
| Placement.CalmTightens | internal/store/workload.go:221-289 | transactions that give nothing back, beside heartbeats, only ever use room up |
| Execution.Execute | internal/reconciler/executor.go:29-90 | request by request: RUNNING with the new container if create and start are granted, FAILED and released if only start is refused, unchanged otherwise; no other row changes |
| Execution.Stop | internal/reconciler/executor.go:92-170 | a row asked to stop is marked STOPPED exactly once its container, if any, was stopped and then deleted |
| Execution.ExecuteOne | internal/reconciler/reconciler.go:226-301 | only this row may change, and what it becomes is accounted for by the requests made for it and their answers: stopped if asked to, started if placed and not underway, none otherwise |
| Execution.ExecuteScheduledWorkloads | internal/reconciler/reconciler.go:213-301 | for any agents, the requests made are one stretch per listed row, each of which accounts for what that row became, whatever became of the rows before; with reliable agents every stop request is carried out |
| Execution.ScheduleOne | internal/reconciler/reconciler.go:182-208 | the turn of one row: nothing unless it is PENDING, no further step if it finds no place, otherwise a whole pass of the executor; a stale copy hands on only rows still unassigned and PENDING |
| Execution.SchedulePendingWorkloads | internal/reconciler/reconciler.go:173-211 | for any agents and node writes every listed row has its turn, read off the log and the requests made; a pass in which nothing is given back and nodes only send heartbeats leaves only rows that fit on no READY node; with reliable agents and room throughout every active row ends up running |
| Replicas.SelectScaleDownCandidates | internal/controller/replica_controller.go:149-171 | the loop selects the specified candidates |
| Replicas.CandidatesAreTheLast | internal/controller/replica_controller.go:149-171 | a row is a candidate exactly if it is active and at most n active rows are listed from it on |
| Replicas.ReconcileReplicas | internal/controller/replica_controller.go:24-111 | creates what is missing, marks the excess, or leaves everything, as specified on the table; a new row has the service's image, version, CPU and memory, no node and no container, and is PENDING |
| Replicas.ReplicasWait | internal/controller/replica_controller.go:24-70 | nothing happens for a service that is not ACTIVE or whose deployment failed, nor while a workload of an older version is in use and not asked to stop |
| Replicas.ReplicasAreCharged | internal/controller/replica_controller.go:47-75 | placing k new replicas charges the nodes k times the CPU and k times the memory of the service in all |
| Replicas.ReplicasHitTarget | internal/controller/replica_controller.go:40-110 | with no older active workload, one call reaches exactly the desired number if and only if there was no excess, or a current replica runs, or none is desired |
| Replicas.SecondCallChangesNothing | internal/controller/replica_controller.go:40-110 | an immediate second call changes nothing, whatever order it lists in |
| Rollout.ReconcileDeployment | internal/controller/deployment_controller.go:24-114 | at most one create or stop per call, the one specified for its listing; a new row has the service's image, version, CPU and memory, no node and no container, and is PENDING |
| Rollout.DecisionByCounts | internal/controller/deployment_controller.go:40-96 | the decision in counts of the table: create exactly if surge room is left; idle exactly if blocked, or the first old row listed runs and none may be spared; otherwise that row goes |
| Rollout.StuckExactly | internal/controller/deployment_controller.go:61-90 | with everything running and old workloads left, a call is idle if and only if surge is exhausted and none may be spared |
| Rollout.NeverStuck | internal/api/validation.go:51-57 | with surge + slack >= 1, an idle call with old workloads left is waiting for an active one that does not run |
| Rollout.StuckForGood | internal/controller/deployment_controller.go:61-90 | with neither, exactly the desired number running is a permanent no-op |
| Rollout.DeployMoveSafe | internal/controller/deployment_controller.go:63-96 | every call respects surge and availability and every action lowers the measure |
| RolloutRuns.RolloutSafeAndBounded | internal/controller/deployment_controller.go:40-113 | over any interleaving with neutral events, runtime repair and recoveries included, active workloads stay within max(initial, desired + surge) and at most 2*old + missing room actions are taken |
| RolloutRuns.RolloutFinishes | internal/controller/deployment_controller.go:40-113 | after that many calls that found all active workloads running, no old workload is active |
| RolloutRuns.BackgroundOnlyLoses | internal/store/workload.go:436-519 | neutral events leave the active workloads as they are but for old ones that fail, and make no current one failed |
| RolloutRuns.NeutralExactly | internal/reconciler/runtime_reconciler.go:61-102 | a lawful event is neutral if and only if it makes nothing active and no current workload failed |
| RolloutRuns.CycleMoves | internal/reconciler/reconciler.go:138-155 | a cycle, read off the log, is a stretch of a rollout with one deployment call |
| Progress.Roll | internal/reconciler/reconciler.go:57-171 | consecutive cycles of a live store keep the surge limit and finish the rollout after enough settled calls, unless something in the log hinders the service; when every cycle goes well (reliable agents, agreeing reports, room) it is over after one cycle more than 2*old + missing room |
| Drift.ReconcileContainer | internal/reconciler/runtime_reconciler.go:50-112 | one reported container moves only its own row: to RUNNING if listed as "running", SCHEDULED if "created", otherwise FAILED and released; if it was asked to stop, to STOPPED exactly if the one request made for it is granted |
| Drift.ReconcileNode | internal/reconciler/runtime_reconciler.go:34-165 | afterwards a row of the node not asked to stop is RUNNING if its container is listed as "running", SCHEDULED if "created", and FAILED and no longer held if listed with any other text or live and not listed; every listed container has its turn whatever is refused; rows the report gives no reason for are neither changed nor released; reliable agents toggle those asked to stop and shown |
| Drift.RepairTwice | internal/reconciler/runtime_reconciler.go:34-149 | a second repair against the same report leaves alone every row but those asked to stop and still shown; with reliable agents it leaves the whole node as it is if and only if there are none of those |
| Deletion.Drain | internal/controller/deletion_controller.go:33-55 | exactly the PENDING, SCHEDULED and RUNNING rows of the service are asked to stop and keep every other column, and it tells whether there were none |
| Deletion.ReconcileDeletion | internal/controller/deletion_controller.go:20-64 | DELETED is written exactly if no row was in use |
| Deletion.ReconcileStatus | internal/controller/deployment_status.go:28-139 | the verdict on the counts of the table, written to that service only; FAILED is left alone |
| Cycle.DeletingPhase | internal/reconciler/reconciler.go:122-132 | the drained rows are passed over by the executor, deleted or not, every one in turn; with reliable agents nothing of a service being deleted is in use afterwards |
| Cycle.ActivePhase | internal/reconciler/reconciler.go:134-169 | one call of each controller, then the turn of every listed row in the scheduling loop, then the verdict, all read off the log; a failed deployment is not steered |
| Nodes.NodePhase | internal/reconciler/reconciler.go:105-120 | every listed node has its turn, whether or not earlier ones could be reached; no in-use workload is left on a node read as UNHEALTHY, if no READY node reports a container of one of its workloads as alive; workloads the nodes agree with stay up or come up |
| Cycle.Reconcile | internal/reconciler/reconciler.go:92-171 | over a whole cycle: a node that was UNHEALTHY and never READY meanwhile is vacant, and with steady statuses every UNHEALTHY node is, given no READY node reports its workloads alive; deletions drained and finished only when nothing is in use; failed deployments untouched; each ACTIVE service steered by one call of each controller, and all up at the end if the cycle goes well |
| Cycle.VacantAtTheEnd | internal/reconciler/reconciler.go:105-171 | if registrations and status writes keep statuses, nothing after the node phase puts work on an UNHEALTHY node |
| Cycle.DeleteInTwoCycles | internal/reconciler/reconciler.go:105-132 | a DELETING service is DELETED within two cycles if agents do as asked and its containers stay down, whatever is written to nodes and services in between |
| Policy.TargetIsLeast | internal/autoscaler/autoscaler.go:101-113 | the raw target is the least n for which n times the CPU request times the CPU target in percent covers the usage, over the columns of the row |
| Policy.ClampIsNearest | internal/autoscaler/autoscaler.go:115-121 | the clamped target is the permitted count nearest to the raw one |
| Policy.ProposalMovesTowardsGoal | internal/autoscaler/policy.go:9-57 | a proposal lies between current and clamped target, within the step, and has waited out its cooldown |
| Policy.ProposalUnless | internal/autoscaler/autoscaler.go:123-142 | exactly when a measured service gets no proposal |
| Policy.ProposalExactly | internal/autoscaler/autoscaler.go:101-142 | over the columns: when a visit proposes a count at all, and that it goes as far towards the permitted count nearest to that least one as one step allows |
| Policy.ClimbReachesGoal | internal/autoscaler/policy.go:39-57 | a constant target is reached at ceil(distance / step) limited steps and not before, without overshoot |
| Policy.WritesAreSeparated | internal/autoscaler/policy.go:9-37 | any two scale writes are apart by at least the row's up or down cooldown in seconds, whichever is the later one's direction |
| Policy.RateIsBounded | internal/autoscaler/autoscaler.go:109-158 | in any window of length T the count moves by at most step * (floor(T / cooldown) + 1) |
| Autoscaler.FinalRunIsMaximal | internal/autoscaler/policy.go:59-87 | the counted run is the longest stretch of equal proposals at the end of the history |
| Autoscaler.Autoscaler.StableObservation | internal/autoscaler/policy.go:59-87 | stable if and only if the run of equal proposals, this one included, is as long as required; the entry counts on for an equal proposal and starts at one for a different one; a first proposal is not stable |
| Autoscaler.Autoscaler.CleanupObservations | internal/autoscaler/autoscaler.go:161-169 | drops exactly the entries not seen for more than ten minutes, and the map still agrees with the history |
| Autoscaler.MeasureService | internal/autoscaler/autoscaler.go:60-100 | the loop adds up exactly the running replicas of the current version, and fails if and only if one reading is missing |
| Autoscaler.TotalWith | internal/autoscaler/autoscaler.go:69-96 | the total is the sum of the readings, whatever the order |
| Autoscaler.Autoscaler.ReconcileService | internal/autoscaler/autoscaler.go:32-159 | the window sees the proposal, the table sees a stable one, an error drops the entry, and nothing else changes |
| Autoscaler.Watch | internal/autoscaler/loop.go:44-67 | any number of visits to a stored service obeys the rate limit, whatever nodes, workloads and services go through in between but an edit of its replica count |
| Validation.ComplaintIsFirst | internal/api/validation.go:8-120 | a refused request is answered with the complaint of the first check that fails, in the order of the checks |
| Validation.AdmitsExactly | internal/api/validation.go:8-120 | which requests are accepted, in the requester's terms |
| Validation.AdmitsColumns | internal/api/handlers.go:282-343 | every column of the row stored for an accepted request |
| Validation.EditsKeepLimits | internal/store/service.go:145-192 | no sequence of updates and scalings changes limits or autoscaling settings |
| Validation.CheckHoldsForGoodIff | internal/api/handlers.go:415-420 | after every sequence of edits the deployment controller acts on every rollout that is due, if and only if the accepted service was created with surge or slack |
| Validation.GapLeadsToStuckRollout | internal/api/handlers.go:400-455 | accepted requests and the controllers' own transactions lead from an empty cluster to a rollout on which every further call is a no-op |
| Validation.AdmittedAutoscales | internal/api/validation.go:70-120 | accepted settings keep the policy's hypotheses through edits: the goal is permitted, proposals stay in or move into the permitted range, and there is none only at the goal or within the cooldown in seconds |

## Left out

- Policy.TargetIsLeast: over exact numbers; floating-point rounding of usage, targets and node scores is not modelled.
- Execution.Execute: errors of the database itself are left out; a transaction applies or changes nothing.
- Cycle.Reconcile: service rows are read at the start of a cycle and no service update lands inside it; updates that overtake a cycle are covered by `Services` instead.
- Cycle.DeleteInTwoCycles: holds where the second report shows none of the service's containers in a live state; a failed container that comes up again is revived by the code and drained in a later cycle.
- RolloutRuns.RolloutFinishes: runs in which a current workload fails (which stops a rollout by design), a finished workload is revived in place, or a recovery makes a stop-requested workload active again are excluded; `RolloutRuns.NeutralExactly` shows that these are the only exclusions.
- Ledger.RunExact: does not hold over the three edges named above; `Ledger.StepExact` states exactly which transactions those are.
- Collisions of random workload ids, and node agents that hand out one container id twice.
- HTTP server, routes, JSON, bearer and mutual TLS authentication, the node agent and its Docker adapter.
- Health checker, heartbeats and metrics collection beyond the node statuses and readings they produce.
- Store.Postgres.CreateService: service names and their uniqueness, update times, and unknown status texts are not modelled.
- `StartDeployment`, `MarkWorkloadFailed` and direct inserts of rows in other states, which the running system does not use.
- Integer overflow of 64-bit counts and 32-bit columns.
