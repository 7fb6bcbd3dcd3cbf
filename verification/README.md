# Verified model of the smart-traffic platform's core

Dafny models of the parts of the platform where state, branching and arithmetic
meet, with proofs of what they guarantee over all inputs and all runs.
`dafny verify dfyconfig.toml` checks everything.

The two halves of the platform share a road network and a four-phase signal
vocabulary. The *simulator* moves vehicles through a network of four signalled
intersections and five boundary nodes. The *runtime* (`Visualize/`) drives SUMO:
it executes operator commands, overlays scenarios on lanes, schedules extra
demand, classifies congestion, and publishes what it sees.

| file | what it models |
|---|---|
| `Options.dfy` | optional values |
| `Network.dfy`, `Routes.dfy` | the edge table and shortest routes; where routes end and what lies inside them |
| `Phases.dfy`, `PhaseController.dfy`, `RealArithmetic.dfy` | the signal phases, the simulator's phase clock, remainders of durations |
| `Vehicle.dfy`, `VehicleLists.dfy`, `TrafficEngine.dfy` | one vehicle, lists of vehicles, and the engine that moves them |
| `SignalControl.dfy`, `SignalController.dfy` | the yellow-safe control of a SUMO light: the machine with its safety proofs, and the objects that implement it |
| `Tracking.dfy` | the deadline rule of tracked phase commands, shared by signals and commands |
| `ResourceState.dfy`, `Capacity.dfy` | lane patches and their composition; overlays and their life |
| `ContextCoordinator.dfy` | congestion states with hysteresis and recovery |
| `PublishLoop.dfy` | the publishing loop with one held cycle and backpressure |
| `Demand.dfy` | the bucket scheduler for extra vehicles |
| `CommandRegistry.dfy`, `CommandProtocol.dfy` | command records and eviction; intake, queue, execution and tracking |
| `OffsetReconcile.dfy` | offset repair as plan and fixpoint |
| `EntityIds.dfy` | entity ids and their isolation namespaces |

How it is built. Code that updates objects in place is a class whose methods are
proved against a specification: either directly about the fields and lists, as in
the engine, or as one step of a pure machine whose runs are then reasoned about,
as in signal control, the publishing loop, the coordinator and the command
protocol. History (`ghost`) fields record what happened, so that conservation and
order can be stated. Times, positions and PCU values are real numbers.

Where the promise is not what the code does, the code is modelled as it is. For each
such place the members named here give the exact condition under which the two agree,
and most also an input where they differ:

- A vehicle blocked at a node's exit with one hop left leaves the network there on
  the next tick, full edge or not (`LastHopSkipped`, on an engine whose state is put
  together by hand and satisfies the invariant; it is not the end of a shown run).
  A retry against a full edge changes nothing if and only if two hops are left
  (`RetryExit`).
- A trip ends at the first boundary node reached. It ends at its destination if and
  only if it was not blocked with one hop left and no boundary node lies inside its
  route (`ExitPlace`). Spawned routes have none inside (`SpawnRoutes`); two reroutes
  can put one there (`RerouteThroughBoundary`).
- The movement table swaps left and right for the east and west approaches
  (`RightTurnsAreRightIff`), so there the right-on-red rule is about left turns, and the
  approach it watches is not the one whose straight traffic the turn joins
  (`WatchesJoinedTrafficIff`).
- The start-up after a stop slows a vehicle down, except in a step that overruns it, which is
  faster than free flow (`CruiseExceedsFreeFlowIff`).
- `count_exited_network` counts kept trip records: it equals the number of exits up
  to 2000 and stops there (`Conservation`).
- Green is left only through its own yellow if and only if nobody forces a green
  light to the other axis's yellow (`LeavesGreenByOwnYellow`, `CrossYellowIsDirect`).
- A tracked command can time out if and only if the yellow has more than 31 whole seconds
  (`TrackedForceIsApplied`, `LongYellowTimesOut`, whose run has a step of 30.5 s). With steps
  of at most d no run ends applied if and only if the yellow is 31 + d or more
  (`NeverAppliedIff`), and then every run past the deadline times out
  (`LongYellowAlwaysTimesOut`).
- Manual mode holds the phase still if and only if a target is scheduled or the first
  step is shorter than the time left to SUMO's next switch (`ManualHoldsStill`); a
  green time set in manual mode can leave less than a step (`GreenChangeIsNotHeld`).
  After backend commands steps under 10 s are always safe, which covers the shipped
  step of 0.01 s (`BackendManualHoldsStill`), and a settled hold survives exactly
  steps under a minute (`MinuteIsExact`).
- Removing every overlay gives a lane back as it was if and only if its speed was at
  least 0.5 and its permission is none of three that capturing or applying merge with
  others (`RestoredIff`, `RestoreIff`).
- `recovery_s` bounds the time to leave congestion if and only if it is no longer than
  `hysteresis_s`, which the shipped 12 s and 8 s are not (`RecoveryBoundsIff`,
  `RecoveryIsNoLowerBound`). It is the time of improved readings only if it is zero
  (`ImprovedThroughoutIff`), because its timer does not notice readings that confirm
  the congestion (`TimerMissesConfirmations`, `StaleRecoveryTimer`). The bound that
  always holds is `Dwell`.
- A request for an early cycle is closed without one if and only if a held cycle is
  accepted in its place (`RequestSpentIff`). Captured cycles lie an interval apart as long as
  the gate is on whenever a cycle is held (`CapturesAreSpaced`); without that they need not
  (`GateFlipCapturesEarly`).
- The demand actuator's description says a source takes the highest target among its
  profiles; the code compares severity first. The two agree if and only if one of
  the profiles that apply is both the most severe and the most demanding
  (`HighestTargetIff`, `SeverityBeatsTarget`); with the shipped targets they always do
  (`ShippedWinnerIsHighest`).
- The reported pending demand leaves out sources without extra demand
  (`ReportedIsOwed`).
- `accept_command` writes QUEUED after the enqueue, which is harmless if and only if
  the command is still queued then (`LateWriteKeepsInvIff`); it can overwrite COMPLETED
  (`QueuedOverCompleted`). A command is left in RECEIVED for ever if and only if
  validation refuses it (`AcceptStrandsIff`, `StrandedForever`). Two unserialised calls
  enqueue an id twice (`RacingCallsEnqueueTwice`).
- Offset repair leaves an issue if and only if a processed offset is at or beyond the
  end of an empty log (`IssuesLeft`).
- Normalising a shadow id gives back the id if and only if it has no shadow marker and
  its local part does not begin with `test:` (`NormalizeUndoesShadowIff`).

## Model

The rows up to `EntityIds.NormalizeUndoesShadowIff` are the main results; the members
they rest on follow.

| member | source | states |
|---|---|---|
| TrafficEngine.CityNetworkEngine.Conservation | simulator/traffic_engine.py:999-1012 | in every reachable state, spawned vehicles = vehicles standing in the lists that `count_total_vehicles` adds up + exits, and the trip records are min(exits, 2000) many, so `count_exited_network` stops counting at 2000 |
| TrafficEngine.CityNetworkEngine.OneListEach | simulator/traffic_engine.py:301-358 | every vehicle still in the network is in exactly one edge or lane list, exactly once, and that list is the one its route and state say; it stands before the end of its edge or before the exit point |
| TrafficEngine.CityNetworkEngine.SegmentTimesAddUp | simulator/traffic_engine.py:405-411 | the segment times of an exited vehicle add up to exit time minus spawn time: exactly with exact storage, within 0.005 s per closed segment with the two-decimal rounding |
| TrafficEngine.CityNetworkEngine.ExitPlace | simulator/traffic_engine.py:493-505 | every trip ended on its vehicle's route: at the first boundary node it reached, at the end, or, only after a block, at the last node before the end; it ended at its destination if and only if it was not blocked there and its route has no boundary node inside |
| TrafficEngine.CityNetworkEngine.ExitsOnce | simulator/traffic_engine.py:484-487 | no vehicle leaves the network twice |
| TrafficEngine.CityNetworkEngine.EdgeNeverOverfull | simulator/traffic_engine.py:258-271 | on every edge the current PCU stays below the capacity plus the largest PCU factor |
| TrafficEngine.CityNetworkEngine.LookupsNeverFail | simulator/traffic_engine.py:273-284 | through any reroutes a route stays a path of the network to the original destination, so every edge lookup along it succeeds and the `ValueError` fallbacks never run |
| TrafficEngine.CityNetworkEngine.Run | simulator/traffic_engine.py:387-396 | any sequence of spawn rounds, ticks and scenario changes keeps the invariant behind all of these, and only adds vehicles and exits |
| TrafficEngine.CityNetworkEngine.TickSimulation | simulator/traffic_engine.py:387-396 | one tick: each clock ticks once and is then changed only by being forced to the green of an approach with a priority vehicle on it; whoever was in a lane or entered one took its turn there, whoever is still on its edge or left the network from it took its step there; the right-on-red check let through exactly the right-lane vehicles at A and C that were neither green, committed on yellow, priority nor held, and whose conflicting side was not green or was clear when the lane's turn came; past the stop line on red stand only those, priority vehicles and vehicles held at the exit; any two vehicles of a node that are past it on the signal alone come from the two approaches of one road |
| TrafficEngine.CityNetworkEngine.RetryExit | simulator/traffic_engine.py:588-594 | a vehicle held at a node's exit tries again: against an edge that is still full nothing changes about its route, place, position, times, the lists and the exits if and only if at least two hops are left; with one hop left it leaves the network at the node |
| TrafficEngine.LastHopSkipped | simulator/traffic_engine.py:753-765 | the input for it: twenty trucks fill the edge from A to W1, a car held at A with only that hop left retries, and is out of the network without having driven the edge |
| Routes.SpawnRoutes | simulator/network.py:120-127 | the routes that vehicles are spawned with have no boundary node inside and meet the destination only at the end |
| TrafficEngine.CityNetworkEngine.RerouteThroughBoundary | simulator/traffic_engine.py:800-815 | the input for the exit rule: from N1 to E1, rerouted around B at A and then around D at C, a vehicle is sent through the boundary node S1 |
| TrafficEngine.RightTurnsAreRightIff | simulator/scenarios.py:57-62 | the movement table names the exit on a driver's right a right turn if and only if the driver comes from north or south |
| TrafficEngine.WatchesJoinedTrafficIff | simulator/scenarios.py:131-136 | right-on-red watches the approach on the driver's left; the straight traffic that the turn joins comes from there if and only if the driver comes from north or south |
| Vehicles.Vehicle.StaysBehindIff | simulator/traffic_engine.py:447-460 | on an edge, for steps of at most the headway of its class, a vehicle stays behind the place where the vehicle ahead stood if and only if crawling at 15 % of its free speed would |
| TrafficEngine.JamFitsIff | simulator/traffic_engine.py:258-271 | for a class of vehicles, every queue within an edge's capacity fits on the edge bumper to bumper if and only if the class is not the motorcycle |
| Phases.OneRoadAtATime | simulator/scenarios.py:101-106 | in every phase the two approaches of a road show one colour, and exactly one of two crossing roads is red |
| Phases.GreenYellowRedRed | simulator/scenarios.py:98-106 | each approach is green in exactly one phase, the one it is forced to, yellow in the next, and red in the other two |
| Network.ComputeRouteIsShortest | simulator/network.py:120-127 | the route connects the two nodes and no path between them is shorter; every node reaches every other |
| Network.ComputeRouteAvoidingSpec | simulator/network.py:130-140 | the result always connects the ends; it misses the avoided node if and only if some path does, and is then shortest among those |
| PhaseClock.RefinesModularClock | simulator/traffic_engine.py:128-134 | with steps no longer than the shortest phase, phase and elapsed time are a function of (reading + total time) modulo the cycle |
| PhaseClock.PhaseFromOffset | simulator/traffic_engine.py:86-101 | from the constructor on, the phase is a function of (offset + total time) mod 100 |
| PhaseClock.NoTimeLost | simulator/traffic_engine.py:128-134 | laps times cycle plus reading grows by exactly dt on every tick, whatever its length |
| SignalControl.NeverSwapsGreens | Visualize/simulation/signal_controller.py:195-275 | over every interleaving of commands, preemption, manual mode, green changes, agent actions and steps, one axis's green is never followed directly by the other's, and a scheduled target always finds the other axis in yellow |
| SignalControl.EmergencyGetsGreen | Visualize/simulation/signal_controller.py:159-193 | from every reachable state that preempts: as long as an emergency vehicle stays in sight on an approach, that approach is green, or red behind the crossing road's yellow with its green scheduled; a green it has is never taken from it; and it is green once Y - 1 seconds have passed since the first sight |
| SignalControl.LeavesGreenByOwnYellow | Visualize/simulation/signal_controller.py:195-275 | over every run from an initial state (`InitialIsTidy`), or from any tidy one, each axis leaves green only through its own yellow if and only if no event forces a green light to the other axis's yellow |
| SignalControl.CrossYellowIsDirect | Visualize/simulation/signal_controller.py:246-252 | the input for it: forcing the other axis's yellow from green goes there directly |
| SignalControl.CrossForceTiming | Visualize/simulation/signal_controller.py:254-265 | after a cross-axis force, with steps of at most d, the target is reached more than Y - 1 seconds later and at most d after the last step that still waited, so within Y - 1 + d |
| SignalControl.TrackedForceIsApplied | Visualize/control/command_executor.py:192-221 | the tracked command ends applied, never timed out, as long as the yellow is at most 31 s |
| SignalControl.LongYellowTimesOut | Visualize/control/command_executor.py:192-221 | with a yellow of 32 s or more some run of steps does time out, so 31 s is exact |
| SignalControl.LongYellowAlwaysTimesOut | Visualize/control/command_executor.py:192-221 | with steps of at most d and a yellow of 31 + d seconds or more, every run ends timed out, exactly when a step begins after the deadline, and none ends applied |
| SignalControl.NeverAppliedIff | Visualize/control/command_executor.py:192-221 | with steps of at most d, no run at all ends applied if and only if the yellow is 31 + d seconds or more |
| SignalControl.ManualHoldsStill | Visualize/simulation/signal_controller.py:42-56 | in every reachable manual state, for steps of a given length under a minute and no commands: the phase changes at most once, to the target already scheduled, and never again, for all such runs, if and only if a target is scheduled or the first step is shorter than the time left until SUMO's next switch |
| SignalControl.GreenChangeIsNotHeld | Visualize/simulation/backend.py:508-512 | the input for it: a green time set in manual mode is not held until the next step, and a step of 15 s leaves the green |
| SignalControl.BackendManualHoldsStill | Visualize/simulation/backend.py:499-512 | after any run of backend commands and steps, manual mode holds the phase still for steps under 10 s |
| SignalControl.MinuteIsExact | Visualize/simulation/signal_controller.py:42-56 | from a settled manual state with nothing scheduled, all runs of steps of at most d hold the phase still if and only if d is under a minute |
| Capacity.ScenarioCapacityActuator.LiveLane | Visualize/actuators/capacity.py:122-268 | in every reachable state a captured lane is live with the composition of the values it had before its first overlay and the patches of exactly the ACTIVE overlays |
| Capacity.ScenarioCapacityActuator.NewestShows | Visualize/actuators/capacity.py:138-235 | what SUMO shows under the newest overlay when the others on the lane have lower priority, against what the lane would show without it: an accident, blocked intersection or restriction closes the first lane if it is to, limits every other lane and leaves its permission; rain scales the speed and an emergency changes nothing |
| Capacity.ScenarioCapacityActuator.AddAlone | Visualize/actuators/capacity.py:122-235 | the same for the only overlay, against what the lanes showed before it was added, lane by lane |
| Capacity.ScenarioCapacityActuator.LiveAsIfNeverAdded | Visualize/actuators/capacity.py:237-245 | an overlay that is not active leaves no trace: every live lane has the values it would have had, had the overlay never been added |
| Capacity.ScenarioCapacityActuator.RestoredIff | Visualize/actuators/capacity.py:237-268 | with no overlay active, a lane is back to what SUMO had before its first overlay if and only if its speed was at least 0.5 and its permission is neither closed nor one of the two lists that mean everyone |
| Capacity.ScenarioCapacityActuator.AddThenRemove | Visualize/actuators/capacity.py:122-245 | adding the only overlay and taking it off again: every lane not captured before is back to its old cell if and only if it was no target or a target so preserved |
| ResourceState.ComposedSpec | Visualize/actuators/resource_state.py:71-81 | each field of a composed lane is that of the patch that decides it: highest priority, later place among equals; a field nobody sets keeps its captured value |
| ResourceState.OrderIrrelevant | Visualize/actuators/resource_state.py:71-81 | when the patches that set a field differ in priority, insertion order does not matter |
| ContextCoordinator.Dwell | Visualize/context_engine/coordinator.py:84-120 | a committed state lasts at least min(hysteresis_s, recovery_s) for every observation sequence with nondecreasing time, and at least hysteresis_s unless a loaded state gives way to an unloaded one |
| ContextCoordinator.LastingChangeIsAccepted | Visualize/context_engine/coordinator.py:84-120 | after readings that were one and the same state for hysteresis_s that state is committed, and reported at once or at the next such reading, whatever came before |
| ContextCoordinator.LastingReliefIsAccepted | Visualize/context_engine/coordinator.py:104-120 | after readings that were all unloaded for recovery_s no load is committed any more |
| ContextCoordinator.RecoveryBoundsIff | Visualize/context_engine/coordinator.py:104-120 | recovery_s bounds the time to leave congestion, and the time between any two commits, for all observation sequences if and only if it is no longer than hysteresis_s |
| ContextCoordinator.RecoveryIsNoLowerBound | Visualize/context_engine/coordinator.py:104-120 | the input for the first: with the shipped 8 s and 12 s congestion is left after 8 s |
| ContextCoordinator.ImprovedThroughoutIff | Visualize/context_engine/coordinator.py:104-120 | leaving congestion needs recovery_s of improved readings, for all sequences, if and only if recovery_s is zero |
| ContextCoordinator.TimerMissesConfirmations | Visualize/context_engine/coordinator.py:104-120 | since the recovery timer was set every loaded reading repeated the committed state, so it ran over improved readings only if and only if none of those came in between |
| ContextCoordinator.StaleRecoveryTimer | Visualize/context_engine/coordinator.py:104-120 | the input for the last: a recovery timer survives a return to congestion and ends it at the next improved observation |
| PublishLoop.HandedInOrderExactlyOnce | Visualize/app/traci_runner.py:692-766 | for every pattern of gate flips, refusals, faults and failing captures: the publisher gets strictly increasing cycle numbers, each cycle captured with the gate on is handed over exactly once or is the single held one, and none captured with the gate off ever is |
| PublishLoop.HeldCycleStopsSimulation | Visualize/app/traci_runner.py:541-614 | with the gate on at the top of every iteration, a held cycle under backpressure stops the simulation until it is handed over |
| PublishLoop.PublishedRecently | Visualize/app/traci_runner.py:692-751 | with the gate on, no faults, captures that succeed and an accepting publisher, after every iteration that is not paused the publisher has a cycle less than an interval old |
| PublishLoop.EarlyRequestIsServed | Visualize/app/traci_runner.py:692-751 | under the same conditions an early request hands over the cycle of its own step |
| PublishLoop.RequestSpentIff | Visualize/app/traci_runner.py:698-716 | a request is closed without a capture if and only if a held cycle is accepted in its place |
| PublishLoop.CapturesAreSpaced | Visualize/app/traci_runner.py:692-751 | without early requests, and with the gate on whenever a cycle is held, any two captured cycles lie at least an interval apart, over every run |
| PublishLoop.GateFlipCapturesEarly | Visualize/app/traci_runner.py:706-751 | the input for the gate condition: a cycle is refused and held, the gate goes off, and the next cycle is captured half an interval later |
| Demand.ScenarioDemandActuator.Run | Visualize/actuators/demand.py:71-251 | every run of profile changes and ticks conserves scheduled = inserted + owed, and nobody is owed more than the cap |
| Demand.ScenarioDemandActuator.NothingToReject | Visualize/configuration/parameter_registry.py:507-528 | for every configuration that loads, no profile asks for less than a source's baseline, so the rejection in the rebuild is dead code |
| Demand.HighestTargetIff | Visualize/actuators/demand.py:89-119 | the winner has the highest target of the profiles that apply if and only if some one of them is both the most severe and the one that asks for most |
| Demand.SeverityBeatsTarget | Visualize/actuators/demand.py:89-119 | the input for it, in a configuration that loads: a node at `oversaturated` wins over a default `peak` that asks for more |
| Demand.ShippedWinnerIsHighest | Visualize/configuration/model_parameters.yaml:493-590 | with the shipped targets the winner always has the highest target, for every set of profiles that apply |
| Demand.SourceBucket.ScheduleIsFloor | Visualize/actuators/demand.py:218-227 | a source that never reached its cap has scheduled exactly floor((clock at the rebuild + time since) / interval) |
| Demand.SourceBucket.ScheduleIsPerHour | Visualize/actuators/demand.py:212-227 | over the time paid for, exactly floor(extra vehicles per hour times hours) are scheduled if the cap was never reached, and never more |
| Demand.SourceBucket.ScheduleAtMostClock | Visualize/actuators/demand.py:218-227 | whatever was lost to the cap, the intervals scheduled never exceed what the clock at the rebuild and the time since have paid for |
| CommandProtocol.EnqueuedOncePerRecord | Visualize/control/command_intake.py:144-173 | over every run of atomic calls an id is enqueued at most once per record it had, never twice at a time, and commands are executed in queue order |
| CommandProtocol.RetainedMovesForward | Visualize/control/command_executor.py:57-246 | while a record is kept its life only moves forward, never leaves a terminal state, and its command is not enqueued again |
| CommandProtocol.LateWriteKeepsInvIff | Visualize/control/command_intake.py:164-173 | when the drain may run between the enqueue and the write of QUEUED, that write keeps the protocol if and only if the command is still in the queue |
| CommandProtocol.LateWriteRegressesIff | Visualize/control/command_intake.py:164-173 | for a kept record the late write turns its life back if and only if the command was already taken, and then strands it unless its phase is in transition |
| CommandProtocol.QueuedOverCompleted | Visualize/control/command_intake.py:164-173 | the run that writes QUEUED over COMPLETED |
| CommandProtocol.RacingCallsEnqueueTwice | Visualize/control/command_intake.py:144-164 | two calls with one id that both found no record enqueue it twice, so calls must be serialised |
| CommandProtocol.AcceptStrandsIff | Visualize/control/command_intake.py:150-190 | a new command is left in RECEIVED with nothing to finish it if and only if validation refuses it |
| CommandProtocol.StrandedForever | Visualize/control/command_intake.py:144-150 | no later event finishes, evicts or enqueues a stranded command; a retry only reads its record |
| Registry.CommandRegistry.EvictIfNeeded | Visualize/control/command_registry.py:83-98 | evicts only terminal records of retention age, the oldest first, no more than needed and no fewer than possible |
| OffsetReconcile.Deployment.Execute | Visualize/tools/production_offset_reconcile.py:307-367 | applying the plan changes exactly what it says, leaves other topics alone, and reports success if and only if no processed offset lies at or beyond the end of an empty log |
| OffsetReconcile.NextPlanIsEmpty | Visualize/tools/production_offset_reconcile.py:245-277 | planning again after applying a plan finds nothing to do |
| OffsetReconcile.IssuesLeft | Visualize/tools/production_offset_reconcile.py:104-128 | afterwards a partition has an issue if and only if its processed offset is at or beyond the end of an empty log |
| OffsetReconcile.ResumePoint | Visualize/tools/production_offset_reconcile.py:259-271 | a processed partition resumes at the earlier of its old offset plus one and the end of the log, never beyond the former, and beyond the latter only for an empty log; one that was never processed resumes at the end of its log |
| EntityIds.NamespacingIdempotent | contracts/canonical_json.py:77-103 | putting an id in a namespace twice is putting it there once, for every id and every namespace |
| EntityIds.NodeKeptIff | contracts/canonical_json.py:55-69 | the node of an id survives a namespace exactly for shadow and test, for an id left alone, and for a token that begins with the node's own name |
| EntityIds.ShadowThenTestIff | contracts/canonical_json.py:98-103 | going to test through shadow equals going there directly if and only if the id has a shadow marker or no test marker behind its leading namespace |
| EntityIds.NormalizeUndoesShadowIff | Visualize/tools/k45_oracles.py:14-18 | normalising undoes the shadow namespace if and only if the id has no shadow marker and its local part does not begin with `test:` |
| TrafficEngine.CityNetworkEngine.CountIsStanding | simulator/traffic_engine.py:999-1009 | adding up list lengths counts each standing vehicle once |
| TrafficEngine.CityNetworkEngine.TryDepart | simulator/traffic_engine.py:772-798 | entry into the next edge happens exactly when it is below its capacity, at the back of its list |
| TrafficEngine.CityNetworkEngine.MaybeReroute | simulator/traffic_engine.py:800-815 | a reroute keeps the travelled part, needs a high-density next node, leads away from it, and follows `compute_route_avoiding` to the same destination |
| TrafficEngine.CityNetworkEngine.Divert | simulator/traffic_engine.py:811-814 | splicing a detour into a route keeps the travelled part and the destination and yields a path |
| TrafficEngine.CityNetworkEngine.RecordTrip | simulator/traffic_engine.py:484-487 | the record is appended, the kept ones are those of the last 2000 exits, and the vehicle counts as gone |
| TrafficEngine.CityNetworkEngine.SpawnOne | simulator/traffic_engine.py:327-358 | a vehicle is only put on an edge that is not full, at the back of its list |
| TrafficEngine.CityNetworkEngine.TickClocks | simulator/traffic_engine.py:389-391 | each node's clock advances by one tick |
| TrafficEngine.CityNetworkEngine.SortCell | simulator/traffic_engine.py:421-421 | sorting an edge list reorders it by descending position and loses nobody |
| VehicleLists.SortByPosition | simulator/traffic_engine.py:421-421 | the result is descending by position and a reordering of the list |
| Network.SearchOptimal | simulator/network.py:120-127 | no simple path through the allowed nodes beats the one the search returns |
| Network.SpliceRoute | simulator/traffic_engine.py:811-814 | a path cut at a node and continued by another path from there is a path |
| PhaseClock.LongStepOverruns | simulator/traffic_engine.py:128-134 | one tick of 60 s leaves the clock overdue, so the step bound is needed |
| PhaseClock.PhaseController.constructor | simulator/traffic_engine.py:86-101 | the loop over the phases places the offset in the cycle |
| PhaseClock.PhaseController.Tick | simulator/traffic_engine.py:128-134 | the in-place tick is the clock's step |
| SignalControl.TickFindsYellowOrTarget | Visualize/simulation/signal_controller.py:127-157 | in every reachable state the branch of `tick_pending` for a light that is neither yellow nor at the target is dead |
| SignalControl.ApplyKeepsInv | Visualize/simulation/signal_controller.py:127-157 | every event keeps the safety invariant |
| SignalControl.StepKeepsInv | Visualize/simulation/backend.py:226-244 | a simulation step in the backend's order keeps it |
| SignalController.SumoSignalController.ForcePhase | Visualize/simulation/signal_controller.py:195-275 | the in-place method computes the machine's transition |
| SignalController.SumoSignalController.TickPending | Visualize/simulation/signal_controller.py:127-157 | the in-place method computes the machine's transition |
| SignalController.SumoSignalController.UpdatePreemption | Visualize/simulation/signal_controller.py:159-193 | the first approach with an emergency vehicle decides, and the transition is the machine's |
| SignalController.SumoSignalController.SetManualMode | Visualize/simulation/signal_controller.py:30-40 | the in-place method computes the machine's transition |
| SignalController.SumoSignalController.SetGreenDuration | Visualize/simulation/signal_controller.py:277-309 | the green is clamped to 10..120 and written for the whole program |
| SignalController.SumoSignalController.ApplyManualHold | Visualize/simulation/signal_controller.py:42-56 | the in-place method computes the machine's transition |
| SignalController.SumoBackend.Step | Visualize/simulation/backend.py:236-243 | simulation step, pending target, then hold or preemption, in that order |
| SignalController.SumoBackend.SetControlMode | Visualize/simulation/backend.py:612-630 | each mode's effect on the controller |
| SignalController.SumoBackend.ForcePhase | Visualize/simulation/backend.py:499-506 | forcing from the backend re-applies the hold in manual mode |
| SignalController.ActionExecutor.Apply | AI_Control_Traffic_Light/environment/action_executor.py:40-81 | an invalid action becomes KEEP, and the transition is the machine's |
| Capacity.PatchesAreActive | Visualize/actuators/resource_state.py:52-69 | every patch on a lane belongs to an active overlay, one per overlay |
| Capacity.ScenarioCapacityActuator.RemoveOverlaysForIntersection | Visualize/actuators/capacity.py:247-257 | removes exactly the ACTIVE overlays of the node |
| Capacity.ScenarioCapacityActuator.TickExpiry | Visualize/actuators/capacity.py:259-268 | removes exactly the ACTIVE overlays whose time has come |
| ResourceState.EffectiveIsWinner | Visualize/actuators/resource_state.py:71-81 | the fold over the priority-sorted patches gives the deciding patch's value |
| ResourceState.EqualPriorityLaterWins | Visualize/actuators/resource_state.py:71-81 | with equal priorities it does: the later patch wins |
| ResourceState.ResourceStateRegistry.Compose | Visualize/actuators/resource_state.py:71-81 | the loop computes the composition |
| ResourceState.ResourceStateRegistry.ApplyEffective | Visualize/actuators/resource_state.py:83-98 | the requested captured lanes become live as composed, speed floored at 0.5, and no other lane changes |
| ResourceState.ResourceStateRegistry.RemoveOverlay | Visualize/actuators/resource_state.py:63-69 | drops the overlay everywhere and reports exactly the lanes that had it |
| ContextCoordinator.ChangeIff | Visualize/context_engine/coordinator.py:84-120 | the committed state changes if and only if the reading differs and hysteresis_s have passed since the last confirmation, or the recovery timer has expired at a step from loaded to unloaded; it changes to the reading, and a confirmation counts as the new start |
| ContextCoordinator.ReportLagsByOne | Visualize/context_engine/coordinator.py:84-128 | the reported state differs from the committed one only at the observation where hysteresis ends a loaded state, and agrees one observation later |
| ContextCoordinator.WorstIsMaximum | Visualize/context_engine/coordinator.py:214-219 | the aggregate is one of the states and none is worse |
| ContextCoordinator.NetworkContextCoordinator.UpdateDirection | Visualize/context_engine/coordinator.py:84-120 | the dictionary updates compute the machine's step for this direction and touch no other |
| ContextCoordinator.NetworkContextCoordinator.UpdateNode | Visualize/context_engine/coordinator.py:63-143 | every reading takes one step and is stored, nothing else changes, and the aggregate is the worst state among all directions the node ever had |
| PublishLoop.NoCaptureWhileHolding | Visualize/app/traci_runner.py:706-716 | with the gate on and a cycle held nothing is captured; with the gate off a held cycle stays |
| PublishLoop.RefusalPauses | Visualize/app/traci_runner.py:563-564 | a refusal in front of a full queue pauses the very next iteration |
| PublishLoop.IterateKeepsInv | Visualize/app/traci_runner.py:541-766 | every iteration keeps the accounting invariant |
| PublishLoop.Runner.Turn | Visualize/app/traci_runner.py:541-766 | one turn of the loop computes the machine's iteration |
| PublishLoop.Runner.PauseWanted | Visualize/app/traci_runner.py:541-602 | the lag gate with its resume hysteresis |
| PublishLoop.Runner.Loop | Visualize/app/traci_runner.py:535-766 | the loop computes the run |
| Demand.ScenarioDemandActuator.EffectiveTarget | Visualize/actuators/demand.py:89-119 | the winner is one of the profiles that apply to the source, and none beats it by severity, then by target |
| Demand.ScenarioDemandActuator.ReportedIsOwed | Visualize/actuators/demand.py:212-240 | the reported pending total equals what is owed if and only if no source without extra demand is owed anything |
| Demand.SourceBucket.Schedule | Visualize/actuators/demand.py:218-227 | every due interval is scheduled up to the cap; scheduled intervals plus clock never exceed what time has paid for, and equal it while the cap was never reached |
| Demand.SourceBucket.Insert | Visualize/actuators/demand.py:228-241 | attempts stop at the first failure, when nothing is owed, or at the attempt limit; each success moves one vehicle from owed to inserted |
| CommandProtocol.StrandedIsReceived | Visualize/control/command_intake.py:150-190 | in runs of atomic calls the stranded commands are exactly those that say RECEIVED |
| CommandProtocol.DeadlineSettles | Visualize/control/command_executor.py:192-221 | the first tick past its deadline that sees the signal fails a transition; before that it completes exactly when nothing is pending and the target is shown |
| CommandProtocol.StepKeepsInv | Visualize/control/command_executor.py:57-246 | every call, executed command and tick keeps: QUEUED is in the queue, APPLYING is in transition, nothing else is, and the counts above |
| CommandProtocol.ControlPlane.AcceptCommand | Visualize/control/command_intake.py:137-201 | the call computes the machine's transition and returns QUEUED, the known record, or an intake error |
| CommandProtocol.ControlPlane.Drain | Visualize/runtime/command_queue.py:62-94 | takes the first min(50, length) commands in order; the result is the run of their executions |
| CommandProtocol.ControlPlane.RunFirst | Visualize/control/command_executor.py:57-190 | start, handler and outcome of one command compute the machine's transition |
| CommandProtocol.ControlPlane.TrackTick | Visualize/control/command_executor.py:192-221 | the loop over transitions computes the machine's tick |
| CommandProtocol.CommandQueue.Enqueue | Visualize/runtime/command_queue.py:37-60 | refuses exactly when the bounded queue is full |
| Registry.CommandRegistry.Put | Visualize/control/command_registry.py:50-61 | a known id keeps its record; a new one is stored and may cause evictions |
| Registry.CommandRegistry.Update | Visualize/control/command_registry.py:68-77 | replaces the status and keeps the time of the first terminal one |
| OffsetReconcile.ResumesAtTarget | Visualize/tools/production_offset_reconcile.py:259-271 | after applying the plan the group resumes at its target on every partition |
| OffsetReconcile.LedgerInsideLog | Visualize/tools/production_offset_reconcile.py:179-198 | no ledger row of a clamped partition lies beyond its new offset, which is inside the log |
| OffsetReconcile.FindIssues | Visualize/tools/production_offset_reconcile.py:104-128 | finds exactly the two kinds of issue |
| OffsetReconcile.BuildPlan | Visualize/tools/production_offset_reconcile.py:245-277 | the clamps, the effective offsets, and a reset exactly where the group does not resume at its target |
| OffsetReconcile.Deployment.ReconcileSqlite | Visualize/tools/production_offset_reconcile.py:144-203 | the clamps applied are those planned; a dry run reports the same and changes nothing |
| EntityIds.ProductionIds | contracts/canonical_json.py:72-103 | for ids with neither marker all of these hold |
| EntityIds.NamespacedOkIff | contracts/canonical_json.py:88-97 | an id is refused exactly if it has neither the marker nor a type with a local part |
| EntityIds.PlacedMarkers | contracts/canonical_json.py:89-103 | an id placed in a namespace has that marker and those it had before, no others |
| Routes.ShortestEndsOnce | simulator/network.py:120-140 | every shortest route, with or without an avoided node, meets its destination only at the end, so reroutes keep that too |
| TrafficEngine.CityNetworkEngine.TickEdges | simulator/traffic_engine.py:414-482 | every vehicle on an edge is stepped exactly once, vehicles elsewhere are untouched, lane lists only gain vehicles at the back, clocks are only forced for a priority vehicle |
| TrafficEngine.CityNetworkEngine.TickEdge | simulator/traffic_engine.py:414-482 | the queue is the edge's list by descending position; each vehicle drives on at its new speed and arrives exactly when that takes it to the end (or it was already waiting there); that speed is the dwell speed, free flow, or slowed down by the vehicle before it in the queue as that one stands after its own step; nobody else changes, and other edges' lists stay |
| TrafficEngine.CityNetworkEngine.StepAll | simulator/traffic_engine.py:421-482 | the sorted list of one edge is worked off from the front; each vehicle is stepped once, from the state it had when the pass began, behind the vehicle stepped just before |
| TrafficEngine.CityNetworkEngine.StepOnEdge | simulator/traffic_engine.py:423-475 | one vehicle of the edge pass: its speed obeys the dwell and headway rules and never exceeds free flow, its new position is old position plus the distance covered at that speed, or it has arrived: out at a boundary, at position 0 in a lane of the node, or held 0.01 m before the end; only its own approach's clock can be forced, and only if it has priority |
| TrafficEngine.CityNetworkEngine.HandleEdgeArrival | simulator/traffic_engine.py:493-535 | at a boundary the vehicle leaves the network with a record; at a node it is held back exactly when its predicted exit edge is at 85 % of capacity, and otherwise its segment time is stored and it joins the back of the lane of its movement, a priority vehicle turning its own approach green |
| TrafficEngine.CityNetworkEngine.TickIntersections | simulator/traffic_engine.py:553-731 | every vehicle in a lane takes exactly one turn in this pass, nobody enters a lane, vehicles on edges are untouched; the right-on-red check lets through exactly the vehicles that the rule allows by their own state and by what the lane's turn finds on the conflicting side: as it was before the pass, or as it is after its turns if it comes first in the order |
| TrafficEngine.CityNetworkEngine.TickLane | simulator/traffic_engine.py:577-731 | one lane: every vehicle takes its turn, exactly those the rule allows at the start of the lane's turn are let through by it, and exactly those that left are taken off the list |
| TrafficEngine.CityNetworkEngine.StepQueue | simulator/traffic_engine.py:579-725 | the sorted copy of one lane is worked off from the front; each vehicle takes one turn, let through by the rule exactly when it was allowed at the start, and is marked for removal exactly if it left |
| TrafficEngine.CityNetworkEngine.StepInLane | simulator/traffic_engine.py:583-725 | the right-on-red rule is what lets a vehicle through exactly when nothing else does and the rule allows it; a vehicle with green, past the commitment point on yellow, with priority, or let through by that rule moves by its new speed and tries to leave exactly when that takes it to the exit point; any other stays at or before the stop line, on yellow 0.01 before the commitment point; one blocked at the exit only retries |
| TrafficEngine.CityNetworkEngine.HandleIntersectionExit | simulator/traffic_engine.py:753-798 | the last hop leaves the network at the node; otherwise the vehicle enters the next edge exactly when that is not full; the first arrival stores the node's time and changes the route only to the way around a node that was dense, a retry changes neither route, index nor times |
| TrafficEngine.CityNetworkEngine.FinishNode | simulator/traffic_engine.py:765-770 | the first arrival at the exit point stores the node's time, advances by one hop, keeps the travelled part, and reroutes only around a dense next node |
| TrafficEngine.CityNetworkEngine.LeaveNetwork | simulator/traffic_engine.py:501-505 | leaving stores the last segment's time and appends exactly one exit, of this vehicle, at the current time, with its route and place |
| TrafficEngine.CityNetworkEngine.TickSpawn | simulator/traffic_engine.py:301-361 | spawned vehicles are new, stand at the start of a shortest route out of a boundary node, with only intersections inside it and nothing recorded; edge lists grow at the back and lane lists stay |
| TrafficEngine.CityNetworkEngine.RemoveGone | simulator/traffic_engine.py:476-482 | exactly the vehicles that left are taken off the list, and the others keep their order |
| Vehicles.Vehicle.CloseSegment | simulator/traffic_engine.py:405-411 | the time since the segment was entered is added under the current edge or node, and the stored times still add up to the time since the spawn, up to rounding |
| Vehicles.Vehicle.Drive | simulator/traffic_engine.py:433-470 | on an edge: 5 km/h while a bus dwells; otherwise free-flow speed exactly when the gap to the vehicle ahead is wide enough, slowed to at least 15 % of it when not; the position advances by exactly that speed |
| Vehicles.Vehicle.Hold | simulator/traffic_engine.py:616-675 | held at a stop position: waits from the moment it is reached, otherwise creeps by the headway rule; a motorcycle filters past another class or closes up behind a motorcycle, exactly as far as the rule says; nobody passes the stop, and one is only moved back when a motorcycle is set behind a vehicle that has just left |
| Vehicles.Vehicle.Proceed | simulator/traffic_engine.py:677-718 | crossing: the start-up clock begins when the vehicle was waiting; the speed is free flow less start-up, incident, turn and headway, and the position advances by exactly that speed in the units of the approach or of the crossing |
| SignalControl.EnteringManualSettles | Visualize/simulation/signal_controller.py:30-56 | entering manual mode settles the hold from every reachable state |
| Capacity.ScenarioCapacityActuator.AddOverlay | Visualize/actuators/capacity.py:122-235 | unknown types and missing roles are refused without effect; otherwise the targets are captured as SUMO has them unless they were captured before, patched and live as composed, no other lane changes, and the overlay is ACTIVE with its expiry |
| Capacity.ScenarioCapacityActuator.RemoveOverlay | Visualize/actuators/capacity.py:237-245 | removes exactly once, keeps what was captured and every lane live as composed, and changes no lane that was never captured |
| ResourceState.RestoreIff | Visualize/actuators/resource_state.py:35-98 | writing captured values back gives the lane as it was if and only if its speed was at least 0.5 and its permission is one that capturing and applying tell apart |
| Demand.ScenarioDemandActuator.Tick | Visualize/actuators/demand.py:206-251 | conserves scheduled = inserted + owed; each source with a positive rate gets exactly dt, the others are untouched, and the reported pending total is what the former are owed |
| Demand.ScenarioDemandActuator.SetProfile | Visualize/actuators/demand.py:71-84 | refused if and only if some profile in force is unknown, and then no bucket changes; otherwise every source gets a fresh bucket that keeps what it was owed and its clock |
| Demand.ScenarioDemandActuator.RebuildBuckets | Visualize/actuators/demand.py:121-177 | one fresh bucket per source, in source order, at the rate of the winning profile; everything owed and every clock is kept |
| SignalController.SumoSignalController.ForcePhaseNamed | Visualize/simulation/signal_controller.py:204-205 | a name that is no phase is refused without any effect; any other computes the machine's transition |
| Phases.ColorsAsTabled | simulator/scenarios.py:101-106 | the colour of an approach is the entry of the table |
| Phases.PhaseNames | Visualize/configuration/config.py:320-325 | a phase is green, yellow or of an axis exactly by the colours it shows |
| PhaseClock.PhaseLasts | simulator/scenarios.py:98-99 | with steps no longer than a yellow, a phase that has just begun shows exactly its time: 5 s, the green that was set, or 45 s; then the next one shows |
| SignalControl.PreemptionGivesWay | Visualize/simulation/signal_controller.py:159-193 | one step that sees an emergency vehicle already leaves its approach green, or red behind the other road's yellow with its green scheduled |
| SignalControl.PreemptionKeepsGreen | Visualize/simulation/signal_controller.py:178-192 | while the approach has its green, or it is scheduled, preemption changes neither the light nor the schedule |
| SignalControl.PreemptingIff | Visualize/simulation/signal_controller.py:159-176 | the preemption flag says that preemption is enabled and an emergency vehicle is in sight |
| SignalControl.ForceTimes | Visualize/simulation/signal_controller.py:207-275 | how long each branch of a force gives: the time left, the target's own time, the crossing road's yellow, or in manual mode an hour |
| SignalControl.LeftAloneKeepsPhase | Visualize/simulation/signal_controller.py:127-129 | outside manual mode and with nothing scheduled, steps alone keep the phase until its planned switch |
| SignalControl.ForcedShowsItsTime | Visualize/simulation/signal_controller.py:207-252 | a phase forced on its own road shows for its time in the program, over every run of steps alone |
| SignalControl.AdvanceTimes | Visualize/simulation/backend.py:236-240 | an advance goes to the next phase for that phase's time, and a step without one changes no light |
| SignalControl.ClampIsNearest | Visualize/simulation/signal_controller.py:277-282 | the green time is allowed, and nearer to what was asked for than any other allowed one |
| SignalControl.GreenTimeHolds | Visualize/simulation/signal_controller.py:277-309 | a new green time replaces the green times of the program and the time left of a green that shows, and nothing else |
| SignalControl.ManualTargetSettles | Visualize/simulation/signal_controller.py:127-157 | in every reachable manual state a scheduled target that shows is held, and so is a phase forced from the backend |
| SignalControl.LeavingManual | Visualize/simulation/signal_controller.py:30-40 | leaving manual mode keeps the light and gives a yellow its time in whole seconds, a green the time that was set |
| SignalControl.ModesExclude | Visualize/simulation/backend.py:612-630 | at most one of manual mode and preemption is on, as the mode says, and changing it keeps the light |
| SignalControl.ActionMeans | AI_Control_Traffic_Light/environment/action_executor.py:40-81 | an action either forces the scheduled or next phase, or keeps the light; an extension gives a green five or ten seconds more |
| Capacity.ScenarioCapacityActuator.AddThenTick | Visualize/actuators/capacity.py:230-268 | an overlay added for a time is removed by the first expiry check that comes that long after, and by none before; the others exactly when due |
| Capacity.OverlayValues | Visualize/actuators/capacity.py:138-235 | the same on the composed values of every lane, for any overlays of lower priority |
| ResourceState.TopPatch | Visualize/actuators/resource_state.py:71-81 | a patch above all others decides the fields that it sets and leaves the rest to them |
| ContextCoordinator.HysteresisIsExact | Visualize/context_engine/coordinator.py:84-103 | a reading is accepted hysteresis_s after the last confirmation and not a moment before |
| ContextCoordinator.ClassifyAtLeast | Visualize/context_engine/coordinator.py:200-212 | each class is reached exactly when the vehicle count or the queue length reaches its limit |
| ContextCoordinator.WorstByName | Visualize/context_engine/coordinator.py:214-219 | the aggregate is the first of the five states, from the worst down, that occurs, and free flow if none does |
| PublishLoop.CapturesIff | Visualize/app/traci_runner.py:692-751 | an iteration that is not paused captures if and only if a request is open or the interval has passed, nothing held or faulted stands in the way, and the capture succeeds; the cycle has the next number and the step's time |
| PublishLoop.PausesIff | Visualize/app/traci_runner.py:541-602 | when a running loop pauses and when a pausing one runs on, in terms of the gate, the publisher, the held cycle and the two lags |
| PublishLoop.StandsStillUntilResumed | Visualize/app/traci_runner.py:541-602 | once it pauses, the loop stands still as long as a backlog lags by the resume threshold, even below the pause threshold |
| Demand.ScenarioDemandActuator.AssignSpec | Visualize/actuators/demand.py:71-84 | the node gets the profile and only that, the other nodes keep theirs |
| Registry.EvictedForAge | Visualize/control/command_registry.py:83-98 | only terminal records of the retention age are evicted, older ones first; none of that age is left over the limit, and never more go than the limit asks for |
| Registry.LifeInOrder | Visualize/control/models.py:23-31 | the stages of a command's life are in order and the ways to end are the last |
| CommandProtocol.TransitionHasItsTime | Visualize/control/command_executor.py:192-221 | a phase command in transition is kept there up to 30 s of simulation time while its target is pending, and not beyond |
| OffsetReconcile.IssueMeaning | Visualize/tools/production_offset_reconcile.py:104-128 | the two issues mean that some offset would be skipped, and that the processed offset is not in the log |
| EntityIds.LowerSpec | contracts/canonical_json.py:83-83 | lower-casing changes the capital letters, each to its small one, and nothing else |
| Vehicles.Round2IsNearest | simulator/traffic_engine.py:405-411 | a stored segment time is the nearest whole number of hundredths of a second, the even one of two equally near |
| Vehicles.Vehicle.StaysBehindInLaneIff | simulator/traffic_engine.py:286-297 | in a lane the same holds at 10 %, when the speed aimed at does not cover the wanted gap in one step |
| Vehicles.GapOutlastsHeadway | simulator/traffic_engine.py:449-456 | a gap that is wide enough leaves room for driving on freely for the whole headway without touching the vehicle ahead, though it stood still |
| Vehicles.GapsAgreeIff | simulator/traffic_engine.py:286-297 | edge and lane ask for the same gap in metres, except behind a standing vehicle between 1 and 3.6 km/h |
| Vehicles.Vehicle.WorseWeatherIsSlower | simulator/traffic_engine.py:433-460 | worse weather never lets a vehicle go faster behind the same vehicle at the same distance |
| Vehicles.LaneMetres | simulator/traffic_engine.py:699-718 | in a lane the position advances by the metres driven, 100 m to the stop line and 30 m across |
| Vehicles.RampOvershootsIff | simulator/traffic_engine.py:685-688 | pulling away takes 2.5 s from a share of 0.3 up to the whole speed; the share exceeds one if and only if the step overruns it |
| Vehicles.Vehicle.CruiseExceedsFreeFlowIff | simulator/traffic_engine.py:677-698 | on a free approach a vehicle is faster than free flow if and only if its start-up is overrun in this step; nothing else makes it faster, on the approach or across |
| Vehicles.TurnsAreSlower | simulator/traffic_engine.py:693-698 | turning is slower than driving straight on, and a left turn the slowest |
| Vehicles.FiltersAsFarAsItMay | simulator/traffic_engine.py:615-663 | a filtering motorcycle gets exactly as far as 5 km/h, the stop and the vehicle ahead allow: 30 cm and its length behind a motorcycle, at most 3 m past another class |
| Vehicles.FilteringNeedsRoom | simulator/traffic_engine.py:623-630 | behind a motorcycle filtering needs half as much room again, and never goes backwards |
| Vehicles.LongerIsHeavier | simulator/models.py:24-57 | a longer vehicle counts for no fewer PCU and keeps no shorter headway; one that counts for more is less agile |
| Vehicles.AdvanceUnits | simulator/traffic_engine.py:462-470 | the position advances by the speed in kilometres per hour over the step in seconds, in units of the given metres |
| TrafficEngine.CityNetworkEngine.NodeVehiclesAre | simulator/traffic_engine.py:166-181 | the vehicles counted in a node are exactly those in one of its lanes, each once |
| TrafficEngine.CityNetworkEngine.EntryPlaceMeans | simulator/traffic_engine.py:493-550 | a vehicle enters a node on the side of its edge, in the straight lane if and only if it goes on to the opposite side, turns back, or goes no further |
| TrafficEngine.CityNetworkEngine.LetThroughIff | simulator/traffic_engine.py:733-751 | the right-on-red rule lets through exactly vehicles in the right lane at A and C, neither held nor with priority: on yellow always, on red unless the other road has green and the watched approach is not clear |
| TrafficEngine.CityNetworkEngine.WatchedApproachIsClear | simulator/traffic_engine.py:740-750 | on red against a green road it asks for a watched approach without straight traffic past the line: for east and west as that approach is after its turns, for north and south as it was before them |
| TrafficEngine.OnePcuPerFiveMetres | simulator/traffic_engine.py:255-256 | an edge holds one PCU for every five metres |
| TrafficEngine.OneLanePerExit | simulator/scenarios.py:57-62 | the straight lane is for the opposite side and for U-turns alone, and no two other exits share a lane |
| TrafficEngine.StraightKeepsHeadingIff | simulator/network.py:34-79 | between intersections the straight lane is that of the vehicles that keep their heading or turn back |
| Network.RoadsAreTwoWay | simulator/network.py:34-79 | every road is two-way with one length and one side of each node for both directions |
| Network.OneRoadPerSide | simulator/network.py:34-79 | no two roads leave an intersection on the same side |

## Left out

- TrafficEngine.CityNetworkEngine.TickSimulation: the phase clocks are held by value, one per node, and stepped with the functions that `PhaseController` is proved to compute; sharing a controller object is not modelled. The order within one edge's queue and its headway rule are stated by `TickEdge`, not repeated at tick level.
- TrafficEngine.CityNetworkEngine.TickSpawn: how many requests a boundary makes, and which destination, class, priority and speed each gets, are arbitrary choices; spawn curves, rates and weather factors only shape those choices.
- TrafficEngine.CityNetworkEngine.MaybeReroute: the random draw is an arbitrary choice.
- Demand.ScenarioDemandActuator.Run: the registry is loaded once and frozen, so a configuration that its validation refuses never reaches the actuator and is not modelled.
- Network.ComputeRouteIsShortest: networkx is replaced by an exhaustive search proved shortest; which of several equally short routes it returns may differ.
- SignalControl.NeverSwapsGreens: SUMO's light is an assumption (four phases, at most one advance in a step and not before the planned switch); calls into SUMO are taken to succeed.
- Capacity.ScenarioCapacityActuator.AddOverlay: the lanes an overlay targets are an input; finding them in the catalogue is not modelled.
- ContextCoordinator.NetworkContextCoordinator.UpdateNode: only the shipped worst-state aggregate; the weighted one, propagation slopes, causes and link states are not modelled.
- PublishLoop.HandedInOrderExactlyOnce: only the asynchronous mode with the publisher; the publisher is a queue that accepts or refuses.
- Demand.ScenarioDemandActuator.Tick: whether SUMO takes an insertion is an arbitrary choice; routes and vehicle types are not modelled.
- CommandProtocol.EnqueuedOncePerRecord: intake calls are serialised (`RacingCallsEnqueueTwice` shows that they must be). What each handler does is one of three outcomes, and commands without an id are left out.
- CommandProtocol.ControlPlane.AcceptCommand: runtime checks and payload checks are one verdict (passes, refused, breaks).
- OffsetReconcile.Deployment.Execute: broker and database calls succeed; the order in which partitions are reported is not modelled.
- EntityIds.NamespacingIdempotent: trimming and lower-casing are those of ASCII.
- The two kinds of engine containers, `edges_vehicles` and the lane lists, are one map from places to lists.
- Statistics that nothing reads back: distances, waiting times and travel times of `record_tick` (which runs twice in the tick a vehicle enters a node), arrival rates, the preemption flag, snapshots, queue metrics and incidents.
- Locks: the simulator's engine is one thread here.
- Display rounding, except the two-decimal segment times.
- Orion, Kafka, ClickHouse, SQLite, Docker and HTTP adapters, live streams, dashboards and benchmarks: calls into libraries.
- Training, rewards and feature vectors of the control agent: numeric code of another kind.
- Relationship normalisation over whole documents: it only applies the id function everywhere.
