# Runner fleet controller

This project models the decision core of a controller that keeps a fleet of
self-hosted CI runners on one Windows host: how much capacity it advertises to
each GitHub scale set, which workers it starts and removes, how it drains,
restarts and recovers, and the job index, log and retry code that core relies
on.

- **Planning.** `Serving`, `Advertising` and `Drain` are the allocator's passes
  over pools in priority order; `ServingLoops` holds the loops that compute
  them. `PlanInputs` and `Planner` assemble a whole plan, and `ServingLaws` and
  `PlanLaws` state what every plan keeps: memory and slot conservation,
  convergence, the Schmitt-trigger fixed point, and that assigned jobs come
  before warm idle workers. `HeadroomDips` is a plan made again with less
  memory, `PlanSafety` what no plan may do, `Gates` the CPU and power admission.
- **Capacity and drain protocol.** `CapacityTransfer` is the exposure of slots
  to listeners in one Step, `ExposureRuns` over runs of Steps whose polls
  succeed, fail or are superseded and whose record may be lost,
  `PendingExposure` under the capacity a superseded poll left pending, and
  `ExposurePlans` the plans behind the runs that go wrong.
  `PollRecords`, `Retirement`, `Shutdown` and `BoundedDrain` are zero-capacity
  confirmations, deregistration and how long a drain takes.
- **Restart.** `ControlPlane` is the two-phase shutdown reservation,
  `RestartChain` the drain loop, the receipt and the command that acts on it.
- **Job index.** `JobRecords`, `JobIndex` and `Compaction` are the merge
  algebra, the upsert fold and capacity compaction; `MessageBatch` and
  `Redelivery` are a scale-set message delivered any number of times.
- **Streams, sweep, deadlines.** `LogStreams`, `LogEvidence`, `Sweep`, `Retry`
  and `Watchdog`.

Code that changes things step by step is modelled as methods and classes proved
against specification functions; the laws are lemmas about those functions.

Two properties the design asks for do not hold of the code as stated.

The comment on sequenceCapacityTransfer promises that a cross-pool reallocation
never exposes one slot to two listeners. That needs a record that covers what
the listeners hold. A Step superseded after a poll succeeded returns without
saving (reconciler.go:660-667), and a Step that could not load its record writes
zero for every pool it did not reach (reconciler.go:325-346, poll_cadence.go:56-75).
`LostAcknowledgementExposes` and `ForgottenRecordExposes` give the runs.
`RunSafeExactly` states, at every point of every run, exactly when the next Step
stays within its host limit or what is already exposed: with two pools or more,
the record must cover every listener and be exact for each beside which another
holds capacity.
`TolerableExactly` says which Steps keep it so and `RunSafeThroughout` what that
means for a whole run; `PendingSafeExactly` is exact for the pending capacity at
hand. `InStepExactly` and `CoveredExactly` say which Steps keep the record exact
or covering, and `RunSafe`, `RunBounded` and `UncoveringStepUnsafe` what that
means for the bound.

The Step deadline is to be a backstop that no legitimate Step meets. The budget
of one attempt is added without saturation (controller_main.go:274), and
`OversizedAttemptLosesBudget` gives a configuration for which it wraps.
`TimeoutExact` and `CoversLegitimateStep` state exactly when the deadline is the
sum it should be.

## Model

| member | source | states |
|---|---|---|
| Memory.Affordable | internal/controller/plan.go:769-779 | the most workers whose memory fits, no more than an int holds |
| Memory.AffordableWithMargin | internal/controller/plan.go:781-791 | the most workers that fit once the margin is set aside; one more would not |
| Memory.AffordsIffFits | internal/controller/plan.go:769-779 | a count is affordable exactly when its total cost fits the memory available |
| Serving.AllocateEffect | internal/controller/plan.go:319-345 | one allocation claims existing workers before funding new ones, spends memory and host slots that were there, with no unsigned underflow, and stops only at a named bound |
| Serving.PassBalanced | internal/controller/plan.go:346-369 | every allocation pass conserves host slots and memory and never counts a worker twice |
| Serving.AllocatedBalanced | internal/controller/plan.go:319-369 | after both passes slots and headroom given out plus what is left are what the host had |
| Serving.AssignmentsBeatWarmIdle | internal/controller/plan.go:346-369 | every pool gets at least what it would with all warm-idle preferences removed, and without them exactly its assigned jobs' workers |
| Serving.AssignedSaturates | internal/controller/plan.go:346-357 | after the first pass every ready pool has its assigned jobs' workers, or host slots, the floor or memory rule out one more |
| ServingLoops.AllocatePool | internal/controller/plan.go:319-344 | the allocate closure computes the allocation the laws are about, step by step |
| ServingLoops.AllocatePools | internal/controller/plan.go:346-369 | the loop over ready pools in priority order computes the pass the laws are about |
| ServingLoops.DecidePools | internal/controller/plan.go:379-423 | the loop that fixes starts, removals and first capacity computes each pool's decision, and the starts it counted |
| ServingLoops.OfferBurst | internal/controller/plan.go:425-452 | one burst pool takes its one slot only from what is left of the budget |
| ServingLoops.OfferBursts | internal/controller/plan.go:425-452 | the burst loop over both candidate lists computes the burst pass |
| ServingLoops.ServePool | internal/controller/plan.go:462-500 | one pool's service share, hold and growth, as the share function states it |
| ServingLoops.ServePools | internal/controller/plan.go:454-502 | the service-slot loop computes the service pass |
| ServingLoops.ServeFleet | internal/controller/plan.go:272-502 | the serving path end to end computes PlanServing, within the host limit in advertised capacity and within limit or busy workers in desired workers |
| Advertising.StartsAreFunded | internal/controller/plan.go:319-396 | each pool starts exactly the workers newly funded over both passes, and none below the memory floor |
| Advertising.DesiredWithinHost | internal/controller/plan.go:272-369 | total desired workers stay within the host limit or the workers already busy |
| Advertising.ClaimFits | internal/controller/plan.go:462-500 | a share never overdraws its limit or the memory; a negative limit wraps as unsigned and still grants nothing |
| Advertising.ClaimIsLargest | internal/controller/plan.go:462-500 | a share is the largest number of slots within its limit that fits: affordable if held before, affordable with the margin to spare if new |
| Advertising.ServeEffect | internal/controller/plan.go:462-500 | serving a pool adds exactly its granted slots to its capacity and takes exactly their memory |
| Advertising.BurstBudgeted | internal/controller/plan.go:425-452 | burst slots never pass the advertisement budget, at any point of the pass |
| Advertising.AdvertisedWithinHost | internal/controller/plan.go:371-501 | every serving plan advertises at most the host limit in total, each pool a non-negative number |
| Advertising.MemoryConserved | internal/controller/plan.go:319-502 | initial headroom is final headroom plus the memory of started workers plus that of extra service slots, to the byte |
| ServingLaws.BurstedSettles | internal/controller/plan.go:425-452 | a burst candidate that keeps its surplus worker advertises a slot, one that does not gives it up |
| ServingLaws.Converges | internal/controller/plan.go:272-452 | active workers less removals plus starts are the desired workers, or one more where the pool is left advertising a slot |
| ServingLaws.SchmittFixedPoint | internal/controller/plan.go:454-502 | planning again with the plan's own capacity as hysteresis baseline gives the whole plan back |
| ServingLaws.ClaimRepeats | internal/controller/plan.go:462-500 | a pool's share is held unchanged, with no further growth, once it is the baseline |
| ServingLaws.ClaimSurvives | internal/controller/plan.go:462-500 | and so it is with less headroom, as long as the drop is within what the share leaves over |
| ServingLaws.GrownClaimSurvives | internal/controller/plan.go:462-500 | with limits unchanged a share gained by growth survives any headroom drop of at most the margin |
| ServingLaws.PassSurvivesDip | internal/controller/plan.go:454-502 | over all pools together: a headroom dip within what the first k pools leave over withdraws nothing from them, and is all that is lost |
| ServingLaws.GrownPassSurvives | internal/controller/plan.go:454-502 | a pool that gained a slot by growth leaves its margin over, so it and the pools before it outlive a dip of at most that margin |
| HeadroomDips.AllocatedDips | internal/controller/plan.go:319-369 | the allocation passes come out the same after any dip within what they left over, whether or not memory denied a worker |
| HeadroomDips.GrowthLeavesMargin | internal/controller/plan.go:454-502 | a served pool that grew leaves at least its margin over in the plan |
| HeadroomDips.ServingSurvivesDip | internal/controller/plan.go:319-502 | planning again after a dip within what the first k pools leave over: same starts and removals, same capacity for those pools |
| HeadroomDips.ServingDipsExactly | internal/controller/plan.go:319-502 | the serving plan made again is the same but for the dip if and only if the dip is within the headroom the plan left over |
| HeadroomDips.PlanSurvivesDip | internal/controller/plan.go:319-502 | the prefix form on BuildPlan, for any memory readings that lower its headroom by the dip |
| HeadroomDips.PlanDipsExactly | internal/controller/plan.go:319-502 | and the exact form: BuildPlan gives the same plan but for the dip if and only if the dip is within the headroom it left over |
| Gates.GateRemembers | internal/controller/plan.go:643-694 | over any observations the gate's two timers are the starts of its current high and healthy streaks |
| Gates.BlocksExactly | internal/controller/plan.go:643-694 | an open gate blocks for CPU exactly when valid observations at or above the threshold span the observation window, whatever the clock does |
| Gates.OpensExactly | internal/controller/plan.go:643-694 | a blocked gate opens exactly when valid observations at or below the resume threshold span the hysteresis window |
| Gates.AdmitsExactly | internal/controller/plan.go:793-808 | under the AC-only policy work is admitted exactly when mains power has lasted the stability window |
| FleetModel.SortedInOrder | internal/controller/plan.go:621-632 | targets are visited by priority, ties by ID, none lost |
| Drain.DrainStartsFit | internal/controller/plan.go:551-588 | while draining, active workers plus starts stay within the host limit or what already runs, and starts fit a valid memory basis |
| Drain.StartMaximal | internal/controller/plan.go:551-588 | a pool short of its serviceable assignments is at the host limit, below the floor or unable to afford one more |
| Drain.DrainCovers | internal/controller/plan.go:551-588 | desired workers are busy workers plus the covered part of the uncovered assignments; a shortfall has one of the named causes |
| Drain.DrainPools | internal/controller/plan.go:551-588 | the drain loop computes those starts and desires |
| Drain.DrainKeeps | internal/controller/plan.go:592-619 | for any order of pools a configured pool keeps exactly min(nonbusy, uncovered) nonbusy workers, loses every gone worker and no busy one |
| Drain.RemovalsNotBusy | internal/controller/plan.go:592-619 | everyone listed while draining is in the inventory and not busy |
| Drain.AppendSafeRemovals | internal/controller/plan.go:592-619 | the removal loop builds exactly that list |
| Departures.RemovalsCount | internal/controller/plan.go:383-451 | the serving removal list takes from each pool what its decision and its burst decision say, never a busy worker |
| Departures.RemovalsNotBusy | internal/controller/plan.go:383-451 | everyone on the serving removal list is in the inventory and not busy |
| PlanInputs.ViewsValid | internal/controller/plan.go:127-193 | what the planner reads of a valid input meets what the serving laws ask for |
| Planner.PlanRegime | internal/controller/plan.go:127-271 | only the serving regime advertises capacity; every other advertises zero everywhere |
| Planner.PlanWithinHost | internal/controller/plan.go:127-516 | every plan, in any regime, advertises a non-negative capacity for exactly the configured pools and at most the host limit in total |
| PlanLaws.PlanFixedPoint | internal/controller/plan.go:454-502 | re-planning with the plan's own advertised capacity gives the whole plan back, in every regime |
| PlanLaws.PlanBeatsWarmIdle | internal/controller/plan.go:346-369 | for every input each pool's desired workers are at least those without warm-idle preferences |
| PlanLaws.PlanRemovesNoBusy | internal/controller/plan.go:127-619 | no plan in any regime removes a busy worker or one not in the inventory |
| PlanLaws.RemovalsMatch | internal/controller/plan.go:383-451 | the removal list of a serving plan takes from each pool exactly the plan's drop |
| PlanLaws.PlanConverges | internal/controller/plan.go:272-452 | executing a serving plan leaves each pool at its desired workers, or one more where it still advertises |
| PlanLaws.PlanConserves | internal/controller/plan.go:272-502 | total desired is bounded, headroom is conserved over the whole plan, and nothing starts below the floor |
| PlanLaws.PlanDrains | internal/controller/plan.go:520-588 | the drain plan keeps the host and memory bounds |
| PlanLaws.PlanDrainKeeps | internal/controller/plan.go:520-619 | the drain plan leaves each configured pool exactly the idle workers its uncovered jobs need |
| PlanSafety.AdvertisedCapped | internal/controller/plan.go:319-502 | through all four passes no pool is offered or wants more than its own cap, or than it already runs |
| PlanSafety.PlanWithinPool | internal/controller/plan.go:127-516 | in every regime a plan advertises to a pool at most its configured capacity or its busy workers |
| PlanSafety.StartsWithinBudget | internal/controller/plan.go:705-748 | with a worker-memory budget, reservations plus started workers never pass it, nor the engine's memory, and nothing starts at the host's floor |
| PlanSafety.StartsAboveFloor | internal/controller/plan.go:758-767 | without one, started workers come out of what the host has above its floor |
| PlanSafety.AdvertisesOnlyWithCpu | internal/controller/plan.go:127-271 | over any history of observations capacity is advertised only after a valid one, with no high streak spanning its window, or a healthy one spanning the hysteresis window if the gate was shut |
| PlanSafety.AdvertisesOnlyOnStablePower | internal/controller/plan.go:127-271 | under the AC-only policy capacity is advertised only once mains power has lasted its window |
| PlanSafety.StopsDesktopOnlyIdle | internal/controller/plan.go:213-230 | Docker Desktop and WSL are taken down only for gaming, with no worker busy, no assigned job unaccounted for and nothing being started |
| CapacityTransfer.SequenceCapacityTransfer | internal/controller/capacity_transition.go:7-29 | in any map order, decreases are sent at once and increases held at the recorded capacity while any decrease is pending |
| CapacityTransfer.PlansAreWithin | internal/controller/plan.go:127-516 | every plan the planner makes is one the exposure results are about |
| CapacityTransfer.CoveredStepSafe | internal/controller/reconciler.go:546-561 | with a record that covers every listener, no outcome of the concurrent polls exposes more than the host limit |
| CapacityTransfer.ExactStepSafe | internal/controller/reconciler.go:546-561 | with an exact record, no outcome exposes more than the limit or what was exposed before, pending and zero clamps included |
| CapacityTransfer.UncoveredStepUnsafe | internal/controller/reconciler.go:546-561 | a listener that holds more than its record shows lets some plan and outcome pass the limit |
| CapacityTransfer.SafeIffRecordCovers | internal/controller/reconciler.go:546-561 | with a record within the limit, and pending capacity that cuts no pool below both its record and its exposure and leaves a free pool beside each uncovered one, a Step stays within the limit for every plan and outcome if and only if no listener holds more than the record shows |
| ExposureRuns.ForgettingPlansZero | internal/controller/reconciler.go:325-346 | a Step that cannot read its record, or quarantines it, advertises nothing |
| ExposureRuns.InStepExactly | internal/controller/reconciler.go:627-667 | an exact record stays exact if and only if a forgetting Step that saves got every pool still holding capacity to acknowledge and a Step that does not close was told nothing the record lacks |
| ExposureRuns.RunInStep | internal/controller/reconciler.go:546-667 | the record is exact throughout a run if and only if every Step of it is so accounted for |
| ExposureRuns.RunSafe | internal/controller/reconciler.go:546-667 | after any run so accounted for the next Step, superseded, forgetting or unsaved, exposes no more than its host limit or what was exposed before |
| ExposureRuns.NextSafeExactly | internal/controller/reconciler.go:546-667 | for every plan, pending capacity, poll outcome and whether or not the record can be read, the next Step exposes no more than its host limit or what is exposed now, if and only if there is at most one pool, or the record covers every listener and is exact for each beside which another holds capacity |
| ExposureRuns.RunSafeExactly | internal/controller/reconciler.go:546-667 | the same at every point of every run, whatever came before |
| ExposureRuns.TolerableExactly | internal/controller/reconciler.go:546-667 | which Steps keep it so: those that keep the record covering and leave it exact for each pool beside which they leave another holding capacity |
| ExposureRuns.RunSafeThroughout | internal/controller/reconciler.go:546-667 | at every point of a run the next Step is safe, whatever it is, if and only if there is at most one pool, or the record starts that way and every Step of the run keeps it so |
| PendingExposure.PendingSafeExactly | internal/controller/reconciler.go:546-555 | under the pending capacity at hand the next Step is safe, for every plan and poll outcome, if and only if no pool that can rise is below its record beside another that holds capacity, and what listeners hold beyond the record is made up for by what pending capacity keeps others from |
| PendingExposure.RunPendingExactly | internal/controller/reconciler.go:546-667 | the same at every point of every run |
| PendingExposure.RestartIsWorst | internal/controller/poll_cadence.go:107-142 | a restart clears the pending capacity, and the Step after it is safe if and only if every next Step is |
| ExposureRuns.CoveredExactly | internal/controller/reconciler.go:627-667 | a covering record stays covering if and only if no acknowledgement that raises a listener above it goes unsaved and nothing held is forgotten |
| ExposureRuns.RunCovered | internal/controller/reconciler.go:546-667 | the record covers every listener throughout a run if and only if every Step keeps it so |
| ExposureRuns.RunBounded | internal/controller/reconciler.go:546-667 | a covered run within a bound on the host limits so far stays within it up to and including the first Step that uncovers the record |
| ExposureRuns.UncoveringStepUnsafe | internal/controller/reconciler.go:546-667 | and after that Step, as long as pending capacity leaves room, some plan and outcome pass any limit the record is within |
| ExposureRuns.CoverageAloneExceeds | internal/controller/capacity_transition.go:13-27 | a state in which a covering record is not enough: the limit is lowered, a pool is raised to its record and the withdrawal of another goes unacknowledged |
| ExposureRuns.LostAcknowledgementExposes | internal/controller/reconciler.go:660-667 | a superseded Step loses an acknowledgement and one slot is exposed twice |
| ExposureRuns.ForgottenRecordExposes | internal/controller/reconciler.go:325-346 | with no acknowledgement lost, a Step that forgets its record closes it at zero for a pool it did not reach and one slot is exposed twice |
| ExposurePlans.CounterexamplePlans | internal/controller/plan.go:272-502 | the allocator really makes the plans of both runs, the one for a pool out of reach included |
| CapacityTransfer.MemoryAffordableCapacity | internal/controller/poll_cadence.go:288-306 | in any order, capacity is cut to exactly the affordable slots, each pool within what it had |
| PollRecords.PollCheckpoint | internal/controller/poll_cadence.go:38-75 | a checkpoint keeps confirmations only for a repeated zero and gains none |
| PollRecords.HandlePolls | internal/controller/reconciler.go:627-659 | for results in any order: what is acknowledged and how zero confirmations count |
| Retirement.RetireWorkers | internal/controller/reconciler.go:764-858 | the rotated loop deregisters at most the cap, each worker allowed to go, moves its cursor by the number spent, and removes whoever neither deregistration nor removal keeps |
| Retirement.RetiredOnlyIf | internal/controller/reconciler.go:779-857 | whoever is deregistered was listed and passed every guard |
| Retirement.SavedConfirms | internal/controller/reconciler.go:627-659 | a Step that leaves a confirmation either made a quiet poll or kept one from before at zero |
| Retirement.ConfirmationExplained | internal/controller/reconciler.go:627-943 | every recorded confirmation goes back to a quiet poll with the pool held at zero since, whatever was cancelled in between |
| Retirement.DeregistersOnlyWhenQuiet | internal/controller/reconciler.go:779-857 | in every run a runner is deregistered only if not busy and two recorded polls of its pool, this and an earlier one, advertised zero and saw no jobs, with no nonzero poll between |
| Shutdown.ShutdownDrained | internal/controller/shutdown.go:88-115 | true exactly when every target has its one record, twice confirmed at zero with nothing assigned, and no worker is active |
| Shutdown.CoversTargets | internal/controller/shutdown.go:88-108 | as many distinct configured pools as targets are all of the targets |
| Shutdown.RetiresUpToCap | internal/controller/reconciler.go:764-858 | when all may go, the loop takes distinct workers until none is left or the cap is spent |
| BoundedDrain.DrainListsAll | internal/controller/plan.go:520-619 | with nothing assigned the drain plan lists every idle configured worker |
| BoundedDrain.StepSettles | internal/controller/reconciler.go:627-943 | an undisturbed Step adds a zero confirmation to every pool |
| BoundedDrain.StepRetires | internal/controller/reconciler.go:764-858 | a settled undisturbed Step removes every worker or a full cap of them |
| BoundedDrain.DrainsInTime | internal/controller/shutdown.go:49-115 | an undisturbed drain of W workers is over within max(2, 1+ceil(W/cap)) Steps, for any order of the removal list |
| BoundedDrain.ShutdownEndsDrained | internal/controller/shutdown.go:49-74 | so the shutdown loop ends, fully drained, within that many Steps |
| BoundedDrain.UndisturbedRunExists | internal/controller/shutdown.go:49-74 | such drains exist, of every length and from every idle fleet |
| ControlPlane.ApplyCoherent | internal/controller/control_handler.go:108-204 | no operation sends a second signal or changes a committed reservation |
| ControlPlane.AtMostOneSignal | internal/controller/control_handler.go:108-204 | however requests, commits and aborts interleave a process sends at most one shutdown signal, and nothing takes it back |
| ControlPlane.PendingExplained | internal/controller/control_handler.go:108-123 | whatever is pending was reserved by one accepted request and has stood since |
| ControlPlane.SignalExplained | internal/controller/control_handler.go:178-190 | a signal carries the reason and restart flag of the one request that was reserved, stood and was committed |
| ControlPlane.ControlHandler.ReadStatus | internal/controller/control_handler.go:206-242 | status names the pending request exactly when it is a restart |
| ControlPlane.ControlHandler.HandleShutdown | internal/controller/control_handler.go:96-123 | answers and reserves as the state machine does, from a status read earlier, on every error path |
| ControlPlane.ControlHandler.CommitShutdown | internal/controller/control_handler.go:178-190 | commits as the state machine does |
| ControlPlane.ControlHandler.AbortShutdown | internal/controller/control_handler.go:195-204 | aborts as the state machine does |
| RestartChain.LoopRuns | internal/controller/shutdown.go:49-73 | the drain loop runs exactly while no turn was cancelled, none observed a drained fleet and no three Steps in a row failed |
| RestartChain.LoopEnds | internal/controller/shutdown.go:49-73 | it ends at the first such turn, and its ending says which |
| RestartChain.ShutDown | internal/controller/shutdown.go:49-86 | the loop computes that ending; its error is degraded exactly after three failures and otherwise a cancellation or a failed close |
| RestartChain.CompleteControllerShutdown | internal/app/controller_main.go:549-579 | a receipt is written exactly for a restart that ended without error or degraded, and names the request, process and version |
| RestartChain.ReceiptExactly | internal/app/controller_main.go:402-420 | a process leaves a receipt exactly if it acted on its own committed restart and ended fully drained with every close successful, or degraded |
| RestartChain.StopController | internal/app/controller_restart.go:34-164 | the command starts the scheduled task exactly on a receipt for the exact request, process and version, whatever the exit code |
| RestartChain.AwaitedWasAsked | internal/app/controller_restart.go:66-105 | the request the command waits for was accepted by the process it talked to |
| RestartChain.RestartProven | internal/app/controller_restart.go:131-164 | if the scheduled task may be started, that process sent exactly that one restart signal and its drain loop ended at a turn that found the fleet drained, with every close successful, or at the third failing Step in a row |
| RestartChain.RestartCompletes | internal/app/controller_restart.go:131-164 | and a process that so ends lets the waiting command start it |
| JobRecords.MergeAbsorbs | internal/jobindex/catalog.go:75-132 | a merged record has absorbed its patch |
| JobRecords.AbsorbedIffUnchanged | internal/jobindex/catalog.go:75-132 | a patch changes nothing, at any later time, exactly when it is absorbed |
| JobRecords.MergeIdempotent | internal/jobindex/catalog.go:75-132 | Merge is idempotent even with a later clock |
| JobRecords.MergeStamps | internal/jobindex/catalog.go:75-132 | the update time of a live record moves exactly when some other field does |
| JobRecords.TombstoneAbsorbs | internal/jobindex/catalog.go:75-132 | a tombstone absorbs every later patch |
| JobRecords.MergePersists | internal/jobindex/catalog.go:75-132 | identity, job, result and completion, once set, are kept by every merge |
| JobRecords.AbsorbedStays | internal/jobindex/catalog.go:75-132 | an absorbed patch stays absorbed under later merges |
| JobRecords.NeverActiveAgain | internal/jobindex/catalog.go:75-132 | along any merge sequence a completed or tombstoned record is never active again |
| JobIndex.BuildIndex | internal/jobindex/file_store.go:180-183 | the key index agrees with the record list |
| JobIndex.UpsertPatch | internal/jobindex/file_store.go:187-211 | one patch moves list and index together, as one Merge on the map they stand for |
| JobIndex.UpsertMany | internal/jobindex/file_store.go:168-214 | the list is the left-to-right fold of Merge with failing patches skipped, each result is its patch's, and no change means the same list |
| JobIndex.UpsertAbsorbed | internal/jobindex/file_store.go:168-214 | a merged patch that takes no side on openness is still absorbed when the fold is done, whatever the others do |
| Compaction.SortedOrders | internal/jobindex/file_store.go:387-462 | candidates are ordered oldest first |
| Compaction.RoundEvicts | internal/jobindex/file_store.go:462-479 | a round evicts only its tier, its oldest first, and at least one record |
| Compaction.CompactedExplained | internal/jobindex/file_store.go:355-375 | for any size function: order kept, only compactable records evicted, tombstones before completed, oldest first within each tier over all rounds, kept plus evicted the original catalog, dropped exactly the evicted non-tombstones, counted; within the cap, or nothing compactable left |
| Compaction.WithoutAndOnly | internal/jobindex/file_store.go:462-479 | kept plus evicted records are the original catalog |
| Compaction.ActiveJob | internal/jobindex/file_store.go:142-155 | the first live record decides whether a runner has a job, and which |
| Compaction.CompactionKeepsActive | internal/jobindex/file_store.go:355-375 | no compaction changes whether a runner has a job |
| Compaction.TierPositions | internal/jobindex/file_store.go:387-455 | the positions of a tier, oldest first, are those of its sorted records |
| Compaction.DropSet | internal/jobindex/file_store.go:462-468 | the drop set holds the positions of the chosen records and no others |
| Compaction.Catalog.CompactOldest | internal/jobindex/file_store.go:387-479 | positions, drop set and in-place filter together remove exactly the round's records and return them in order |
| Compaction.Catalog.EncodeWithinCapacity | internal/jobindex/file_store.go:355-375 | the loop ends, for any size function, with exactly the compaction described; a failure returns no dropped records |
| Compaction.FilterInPlace | internal/jobindex/file_store.go:467-478 | writing kept records over the front of the array being read loses and repeats nothing |
| Compaction.FilterByPosition | internal/jobindex/file_store.go:462-479 | dropping positions is dropping the records with those keys |
| MessageBatch.ValidateJobCompletion | internal/scaleset/official.go:304-328 | identified exactly with a job, a result and a whole runner identity; unidentified exactly as a cancellation with a job, no runner and no assignment time |
| MessageBatch.TrimTwice | internal/scaleset/official.go:223-247 | trimming twice is trimming once |
| MessageBatch.PersistUpserts | internal/jobindex/file_store.go:157-214 | what an event saves is the job index's own upsert, and no two records then share a job |
| MessageBatch.PersistSame | internal/jobindex/catalog.go:228-240 | an event saved at any two times into catalogs alike up to timestamps succeeds in both and leaves them alike |
| MessageBatch.ReplaySkips | internal/scaleset/official.go:252-261 | saving again events the catalog holds changes nothing, whatever the clock |
| MessageBatch.PersistAllHolds | internal/scaleset/official.go:252-261 | saved events are all held, later ones do not undo earlier ones |
| MessageBatch.ResumeSame | internal/scaleset/official.go:252-261 | a replay reaches, event by event, the catalog of the uninterrupted run up to timestamps |
| MessageBatch.TearKeepsHolding | internal/jobindex/file_store.go:328-331 | a save that replaces the catalog but not the assign-times sidecar takes back nothing the catalog held |
| MessageBatch.TornPersists | internal/jobindex/assign_times.go:64-96 | saving the event again over such a catalog gives one whole save up to timestamps, and losing the sidecar again changes nothing |
| MessageBatch.TornResumes | internal/scaleset/official.go:252-261 | a replay over a catalog torn at one event reaches the catalog of the uninterrupted run once it is past that event |
| MessageBatch.SameShapeSameStatus | internal/jobindex/catalog.go:228-240 | records alike up to timestamps have the same job, result and active status |
| Redelivery.SaveEventsPrefix | internal/scaleset/official.go:252-261 | whatever stops the saves, those that succeeded are a prefix of the events and at most the next one is on disk, whole or without its sidecar |
| Redelivery.ActiveAfterAt | internal/scaleset/official.go:262-269 | a runner's job after a message: none if it finished, else the last started, else what it was |
| Redelivery.ActiveAfterTwice | internal/scaleset/official.go:262-269 | updating the active-job map again changes nothing |
| Redelivery.AcceptedAgain | internal/scaleset/official.go:221-249 | an accepted message is accepted again once its own starts are active |
| Redelivery.AcquiresLast | internal/scaleset/official.go:252-296 | jobs are acquired only after every event is in the catalog and the message is acknowledged, in that order |
| Redelivery.RedeliveryHarmless | internal/scaleset/official.go:196-300 | after any number of deliveries failing at any save, before it is written, between the catalog and its sidecar or after both, at the acknowledgement or at the acquisition, the message is accepted and one that does not fail leaves the jobs, results and statuses of one uninterrupted delivery |
| Redelivery.Validate | internal/scaleset/official.go:218-249 | the loops accept exactly the batches the specification accepts, and set apart the completions that name a runner |
| Redelivery.Client.SaveAll | internal/scaleset/official.go:250-261 | the two persistence loops save in order and stop at the first failure |
| Redelivery.Client.UpdateActive | internal/scaleset/official.go:262-269 | starts set and completions clear the active-job map |
| Redelivery.Client.Poll | internal/scaleset/official.go:196-300 | one poll does exactly what the delivery specification says, on every failure path |
| LogStreams.KeptWithinLimit | internal/runtime/docker/artifacts.go:720-765 | truncated output never exceeds the limit, is the input when that leaves room for the marker, and otherwise fills the limit and ends in the marker |
| LogStreams.ChunkIndependent | internal/runtime/docker/artifacts.go:720-765 | however the input is cut into writes, the log holds what truncating the whole input keeps |
| LogStreams.TruncatingWriter.Write | internal/runtime/docker/artifacts.go:720-765 | nothing the destination does takes the log past the limit; if it takes all it is given the write is the specified one |
| LogStreams.BoundedWriter.Write | internal/runtime/docker/artifacts.go:795-811 | takes what fits and fails exactly when something does not or nothing more can |
| LogEvidence.IndexOf | internal/runtime/docker/log_evidence.go:33-44 | the first newline, or none |
| LogEvidence.SplitJoins | internal/runtime/docker/log_evidence.go:33-44 | complete lines and the rest make up the stream, with no other newline |
| LogEvidence.LastEvidenceIsLast | internal/runtime/docker/log_evidence.go:58-67 | the evidence is that of the last line short enough that parses, none exactly if there is none |
| LogEvidence.AppendObserves | internal/runtime/docker/log_evidence.go:46-56 | appending a piece of a line keeps the state a function of the stream |
| LogEvidence.CompleteObserves | internal/runtime/docker/log_evidence.go:58-67 | completing a line keeps the state a function of the stream |
| LogEvidence.Observer.Observe | internal/runtime/docker/log_evidence.go:33-44 | after any chunk the whole state is that function of everything observed |
| LogEvidence.Observer.Write | internal/runtime/docker/log_evidence.go:27-31 | exactly the bytes the destination took are observed |
| LogEvidence.Observer.ObserveAll | internal/runtime/docker/log_evidence.go:27-44 | over any chunks the state is that of the concatenated stream |
| Sweep.KeptStaysKept | internal/runtime/docker/artifacts.go:507-536 | once a candidate is kept no later one is removed |
| Sweep.RemovesOldest | internal/runtime/docker/artifacts.go:507-536 | the removed are the oldest, every expired one among them; the others were under cap pressure, and none is left under it |
| Sweep.RemoveArtifacts | internal/runtime/docker/artifacts.go:518-527 | bytes are taken off the total even when a removal fails part-way, and success means all three |
| Sweep.RunSweep | internal/runtime/docker/artifacts.go:507-536 | stopping at the first kept candidate removes and tombstones exactly what looking at every candidate would; it is cancelled exactly if the context ends before a candidate it gets to, and then leaves the files removed so far and no tombstone |
| Retry.GrownBounds | internal/controller/retry.go:42-53 | the backoff stays between one nanosecond and the maximum |
| Retry.GrowDelay | internal/controller/retry.go:42-49 | leaving the loop at the cap gives the fully grown, capped delay |
| Retry.JitterBounded | internal/controller/retry.go:70-85 | jitter makes at most the jittered maximum of a capped delay, and at least a nanosecond |
| Retry.Delay | internal/controller/retry.go:42-68 | a wait is at most the jittered maximum and at least the server's Retry-After up to the maximum |
| Retry.RetryValue | internal/controller/retry.go:89-110 | at most MaxAttempts calls, the first success only retried failures precede, and an end within calls times request timeout plus jittered maximum |
| Watchdog.SaturatingMulClamps | internal/app/controller_main.go:298-307 | the division check catches every 64-bit overflow: the product is the exact one clamped |
| Watchdog.SaturatingAddClamps | internal/app/controller_main.go:311-342 | the sum is the exact one clamped |
| Watchdog.SaturatingScaleClamps | internal/app/controller_main.go:323-331 | the scaled duration is the exact one clamped |
| Watchdog.TimeoutWraps | internal/app/controller_main.go:265-287 | for every valid configuration the deadline is the exact sum, clamped, around the attempt budget as 64-bit addition gives it |
| Watchdog.TimeoutExact | internal/app/controller_main.go:265-287 | the deadline is the exact worst-case sum clamped to the longest duration if and only if one attempt's budget is a duration or the wrapped sum is the longest one anyway |
| Watchdog.TimeoutMonotone | internal/app/controller_main.go:265-287 | raising either worker cap never shortens the deadline, for every valid configuration |
| Watchdog.CoversLegitimateStep | internal/app/controller_main.go:260-287 | no legitimate Step, of calls within their retry bound, Desktop and image waits and idle confirmations, outlasts the deadline if and only if that condition holds |
| Watchdog.OversizedAttemptLosesBudget | internal/app/controller_main.go:274-275 | a configuration that loads, whose attempt budget wraps, gets a deadline of five nanoseconds |

## Left out

- ExposureRuns.RunSafe: assumes a fixed target set, and asks for an exact record where RunSafeThroughout shows that less is enough.
- CapacityTransfer.SafeIffRecordCovers: is about the host limit alone, for a record within it and one pending map that leaves room; PendingExposure.PendingSafeExactly has neither condition.
- Compaction.Catalog.CompactOldest: assumes unique keys, which the catalog is validated for before it is saved.
- Redelivery.RedeliveryHarmless: leaves out capacity compaction between two deliveries, which may evict a completed record, and other writers of the same catalog.
- Retirement.DeregistersOnlyWhenQuiet: assumes observed-state saves succeed, as the property does.
- RestartChain.RestartProven: assumes only controllers write the receipt file and that request IDs are not drawn twice.
- Watchdog.TimeoutExact: computes the jittered maximum over exact reals; the rounding of float64 is not modelled.
- Retry.Delay: the same, for the growing delay and the jitter.
- Gates.OpensExactly: CPU percentages are exact reals.
- Sweep.RunSweep: takes the candidates sorted by finalization time; the sort itself, the sweep of unreferenced files and the orphan sweep are not modelled.
- LogEvidence.Observer.Observe: parsing of a timestamp and of the evidence document are parameters.
- Problem records, phases, quiesce reasons, presence reporting and log events: reporting only.
- executePlannedStarts, the registration-check rotation and the unregistered-worker path beyond its removal: easy members once the plan is given.
- How the cadence watcher's re-plans set and clear pending capacity: each Step takes any nonnegative pending map, the empty one of a restart included.
- alignAdvertisedCapacity, the timestamps of poolAcknowledgementTransitionAt and sameWorkerInventory: one-line facts.
- The lookup of a lost assign time by job ID, for a record filed under another runner.
- Overflow of worker, job and pool counts as Go int: counts are unbounded, the host limit is at most the largest int; uint64 memory wraps explicitly.
- Margins and percentages in the memory basis are exact ceilings.
- Map iteration order is a parameter or a nondeterministic choice; composite keys are pairs; pool lists are maps by unique ID.
- Whitespace trimming knows the Latin-1 spaces, case folding the ASCII letters.
- Catalog validation other than unique jobs and keys, JSON encoding, atomic and durable file replacement, access control.
- Force-stop, goroutine dumps and status probes of the control server, its authentication and transport.
- The wait for the replacement controller after the scheduled task is started.
- Docker, Windows and GitHub adapters, configuration loading, the CLI, menu and telemetry.
- Real goroutines, timers and contexts: each is a nondeterministic outcome at the step where it matters.
