# Autopilot manager: a verified model

This project models four stateful parts of the autopilot manager and proves what they guarantee over
whole runs.

* **Time synchronisation** (`ClockArithmetic`, `Filter`, `FilterConvergence`, `GainSchedule`,
  `FilterLock`, `FilterRuns`, `FilterHistory`, `FilterJump`, `FilterStamp`, class `TimeSync`). The
  64-bit arithmetic of a TIMESYNC packet with every wrap-around, the double-exponential filter with
  its gain schedule, outlier counting and reset. The centre is a quadratic form in the offset and
  skew errors that an exact sample multiplies by exactly one minus the gain.
* **Safe landing** (`MissionTypes`, `MissionSteps`, `MissionSafety`, `MissionRuns`, `MissionTiming`,
  `MissionRetrigger`, `MissionReactions`, `MissionLanding`, `MissionVelocity`,
  `MissionStaleVelocity`, class `MissionManager`). The decision tick, the flight-mode, landed-state
  and trajectory callbacks as atomic events in any order; the landing planner is a phase machine
  whose answers are arbitrary inputs. A value that may be NaN is an option.
* **Custom actions** (`ActionProtocol`, `ActionSafety`, `ActionTheorems`, `ActionReports`,
  `ActionOutcomes`, `ActionErrors`, `ActionJoin`, `ActionSuccess`, `ActionQueue`, `ActionShared`,
  class `CustomActionHandler`). Worker thread, reporter thread, cancellation and arrival as a state
  machine. Every read and every write of data that another party writes is a step of its own: an
  arriving action asks whether the queue is empty, looks at its end, appends and announces in four
  steps, the worker sees the announcement, reads the queue and registers the action in three, and
  the reporter reads progress and result in two. What only one party touches (the worker's own
  entries on its way through an action) may share a step, and an operation on a vector is atomic.
  Reading the end of an empty queue, which is undefined in the original, is a fault state. The
  theorems hold for every interleaving.
* **Configuration file** (`ConfigKeys`, `ConfigText`, `ConfigKeySearch`, `ConfigFile`,
  `ConfigRoundTrip`, `ConfigTheorems`, `ConfigNumbers`, class `AutopilotManagerConfig`). The file of
  a header and 36 lines down to its characters: decimal printing and parsing, the search for a key
  anywhere in a line, and exactly when loading gives back what was saved.

Each part has functions that say what one step does, a class with the fields of the original whose
methods are proved against those functions, and lemmas about the functions.

Where code and comments disagree, the model follows the code:

* the time filter is reset by the sixth outlier in a row; the comment beside it says five;
* the 32-bit sample counter wraps, after which a converged filter is no longer converged
  (`CounterWrapLosesConvergence`);
* the go-to-waypoint reaction compares the present altitude with a remembered altitude that is never
  set, so that a vehicle standing on the waypoint is told to return only within a metre of altitude zero
  and is sent to where it already is everywhere else (`VehicleOnWaypoint`);
* the smoothed search velocity outlives a search, so that only the first steering message of the process
  is sure to head for the waypoint; a later search may begin by moving away from it
  (`AnswerHeadsForWaypoint`, `LaterSearchMovesAway`);
* the line of `safe_landing_enabled` prints the flag of the simple collision avoidance;
* a progress response may carry success next to a stale progress (`TornResponse`, exact rule
  `FullProgressRule`);
* a reporter whose iteration does not fit into the time the stop flag is raised can miss it, after which
  the worker waits for good (`WindowCanBeMissed`, `JoinCanComplete`); if it fits, every action ends
  (`EveryActionEnds`);
* an action arriving while the one before is being registered lends its number to the reporter of that
  one (`LateArrivalMislabels`, exact rule `LateArrivalRule`);
* an announcement that overtakes the clearing of the queue makes the worker read an empty queue, and so
  does clearing it between the two reads of an arriving action (`EmptyFetch`, `EmptyCompare`, exact rule
  `QueueRule`);
* a tick that finds safe landing disabled or avoidance lost ends the search without setting the retry
  timer, so that the next action may follow sooner than five seconds after it (`SearchEndsWithoutTimer`,
  exact rule `QuietAfterSearch`);
* serving another input type for five seconds during a search lets a later tick start the search again
  on an active planner (`InputSwitchRestartsSearch`, exact rules `BusyRule` and `RestartRule`).

`dafny verify dfyconfig.toml` checks the whole project.

## Model

| member | source | states |
|---|---|---|
| ClockArithmetic.RoundTripGate | src/modules/sensor_manager/TimeSync.cpp:91-116 | the gates admit exactly the packets that carry both timestamps and return within 10 ms; echoes of messages from the future wrap around and are refused |
| ClockArithmetic.OffsetIsExact | src/modules/sensor_manager/TimeSync.cpp:96 | the mixed signed and unsigned offset expression is the true sum halved toward zero if and only if that sum fits a signed 64-bit value, which any realistic local time guarantees |
| ClockArithmetic.SampleAccuracy | src/modules/sensor_manager/TimeSync.cpp:96-116 | for every genuine exchange, however the delay is split between the two directions, a sample that passes the gate is within half its round trip plus two microseconds of the true offset |
| FilterConvergence.EnergyBoundsOffset | src/modules/sensor_manager/TimeSync.cpp:61-79 | the error form is non-negative and bounds the squared offset error |
| FilterConvergence.ExactSampleContracts | src/modules/sensor_manager/TimeSync.cpp:61-79 | one exact sample multiplies the error form by exactly one minus the gain |
| FilterConvergence.NoisySampleContracts | src/modules/sensor_manager/TimeSync.cpp:61-79 | one sample with bounded noise pulls the error form toward the noise plateau by a fixed share |
| GainSchedule.ExponentFalls | src/modules/sensor_manager/TimeSync.cpp:134-135 | during the schedule the divisor one minus progress is positive and the sigmoid's exponent starts at zero and never rises |
| GainSchedule.GainNeverRises | src/modules/sensor_manager/TimeSync.cpp:130-142 | both gains follow one schedule that starts at 0.05, never rises and never falls below 0.003 |
| FilterLock.GainDropKeepsLevel | src/modules/sensor_manager/TimeSync.cpp:130-145 | lowering the gain anywhere within its range never raises the weighted error form |
| FilterLock.FirstAcceptLevel | src/modules/sensor_manager/TimeSync.cpp:69-70 | the first sample after a reset puts the weighted error form below the noise ceiling, whatever the true offset |
| FilterLock.LaterSampleLevel | src/modules/sensor_manager/TimeSync.cpp:130-145 | every later honest sample keeps it below the ceiling at every stage of the gain schedule |
| FilterLock.CorrectionRule | src/modules/sensor_manager/TimeSync.cpp:61-79 | for any two gains a sample moves the offset from its prediction by the share alpha of the deviation, and the skew by the share beta of what the offset moved beyond it |
| FilterLock.AcceptInErrorCoordinates | src/modules/sensor_manager/TimeSync.cpp:72-78 | an accepted sample moves offset and skew errors by the linear map the analysis is about, for any truth and drift |
| FilterLock.HonestLinkKeepsLock | src/modules/sensor_manager/TimeSync.cpp:90-158 | over any packet sequence of an honest, possibly drifting link, from a cold start on: every usable sample is accepted, none is an outlier, no reset happens, and the error stays within 80 times the noise; until convergence for any noise, afterwards for noise up to 1.2 ms |
| FilterRuns.ConvergedLinkSettles | src/modules/sensor_manager/TimeSync.cpp:90-158 | a converged filter on an honest link, pending outliers or not, stays locked; its first sample clears the outlier count, and its error form decays geometrically to the noise plateau |
| FilterRuns.HonestLinkSettles | src/modules/sensor_manager/TimeSync.cpp:90-158 | what a tracking filter carries above the plateau decays geometrically from the 251st sample on |
| FilterRuns.ColdStartSettles | src/modules/sensor_manager/TimeSync.cpp:90-158 | end to end from a reset filter: an honest link converges, counts no outlier, and after more than 250 usable packets its error form decays geometrically to the noise plateau |
| FilterRuns.GenuineLinkConverges | src/modules/sensor_manager/TimeSync.cpp:48-158 | on a link of genuine exchanges with any round trips that pass the gate, a fresh filter accepts the first 250 usable packets, converges with the 250th and not before, and counts no outlier |
| FilterRuns.GenuineColdStart | src/modules/sensor_manager/TimeSync.cpp:48-158 | on a link of genuine exchanges with round trips up to 2.396 ms a fresh filter converges after exactly 250 usable packets and is never reset |
| FilterRuns.GenuineLinkStaysLocked | src/modules/sensor_manager/TimeSync.cpp:90-158 | a settled filter on a link of genuine exchanges keeps lock within 12 ms for every round trip that passes the gate |
| FilterRuns.DriftEnergy | src/modules/sensor_manager/TimeSync.cpp:61-79 | with equal gains and an offset that drifts linearly at any real rate, n exact samples multiply the error form by exactly the n-th power of one minus the gain |
| FilterRuns.DriftIsTracked | src/modules/sensor_manager/TimeSync.cpp:62-65 | no steady-state lag: the squared offset error on a linearly drifting clock dies out geometrically for every constant gain |
| FilterHistory.StepRefinesHistory | src/modules/sensor_manager/TimeSync.cpp:116-156 | one packet keeps counter, outlier count and gains equal to what the history of outcomes says |
| FilterHistory.RunRefinesHistory | src/modules/sensor_manager/TimeSync.cpp:48-158 | over every run: converged exactly from 250 accepted samples since the last reset on (modulo 2^32), at most five pending outliers at rest, a reset exactly on the sixth without an accepted sample between |
| FilterHistory.GainsOverRun | src/modules/sensor_manager/TimeSync.cpp:50-59 | over every run the two gains are equal and stay in [0.003, 0.05], and they never rise over a run without a reset in which at most 2^32 samples follow the last reset |
| FilterHistory.CounterWrapLosesConvergence | src/modules/sensor_manager/TimeSync.cpp:148 | the sample that wraps the 32-bit counter takes a converged filter back to an unconverged one |
| FilterHistory.JumpRecovery | src/modules/sensor_manager/TimeSync.cpp:80-158 | after a time jump beyond 100 ms a locked filter keeps its estimate for five samples, resets on the sixth and is locked exactly on the new offset 250 samples later; stamps are local time in between |
| FilterJump.FarPackets | src/modules/sensor_manager/TimeSync.cpp:118-128 | packets all beyond the outlier gate leave everything but the outlier count as it is until the sixth pending one, which resets the filter |
| FilterJump.NoisyJumpRecovery | src/modules/sensor_manager/TimeSync.cpp:90-158 | a converged filter with any estimate and up to five pending outliers, on a noisy and drifting link whose truth has jumped beyond gate, noise and drift, is reset exactly with the sixth pending outlier, is converged again exactly from the 250th usable packet on, and stays within 80 times the noise of the new truth |
| FilterStamp.StampRule | src/modules/sensor_manager/TimeSync.cpp:80-88 | in every state: a stamp of a converged filter differs from remote time by the integer the offset estimate is cut to toward zero, and by nothing else, modulo 2^64; before 250 samples it is local time |
| FilterStamp.GenuineStamp | src/modules/sensor_manager/TimeSync.cpp:80-158 | over every run on a link of genuine exchanges, whatever the skew, a settled filter's stamps are remote time moved by a whole number within 12 ms and one microsecond of the true lag |
| TimeSync.TimeSync.constructor | src/modules/sensor_manager/TimeSync.hpp:72-84 | a new filter is the reset filter and matches the empty history |
| TimeSync.TimeSync.ResetFilter | src/modules/sensor_manager/TimeSync.cpp:50-59 | all statistics and gains return to their initial values |
| TimeSync.TimeSync.AddSample | src/modules/sensor_manager/TimeSync.cpp:61-79 | updates estimate and skew in place as the filter function says |
| TimeSync.TimeSync.SyncConverged | src/modules/sensor_manager/TimeSync.cpp:48 | true exactly for a converged state |
| TimeSync.TimeSync.SyncStamp | src/modules/sensor_manager/TimeSync.cpp:80-88 | local time before convergence; afterwards remote time moved by the one whole number the offset estimate is cut to, modulo 2^64 |
| TimeSync.TimeSync.Run | src/modules/sensor_manager/TimeSync.cpp:90-158 | one packet takes the fields to the specified next state and extends the matching history by the verdict on the packet |
| MissionSafety.StepKeepsInvariant | src/modules/mission_manager/MissionManager.cpp:256-289 | every callback keeps: override waypoint finite exactly while the planner is active, no active planner in a manual mode, no search without global origin |
| MissionSafety.TickKeepsInvariant | src/modules/mission_manager/MissionManager.cpp:490-891 | so does every decision tick, across all ways a search starts, fails to start, ends, is aborted, disabled or reset |
| MissionSafety.RunKeepsInvariant | src/modules/mission_manager/MissionManager.cpp:137-1035 | hence so does every run, at any interleaving of whole callbacks; a global origin once received is kept |
| MissionRuns.RunIsTold | src/modules/mission_manager/MissionManager.cpp:256-1031 | after every run flight mode and landed state are those of the last such messages, the global origin is known exactly if it was received, and without a tick nothing has been started |
| MissionRuns.LandedRule | src/modules/mission_manager/MissionManager.cpp:1000-1005 | the present landed state is the message's; the previous one is remembered exactly on a change |
| MissionRuns.TrajectoryRule | src/modules/mission_manager/MissionManager.cpp:137-229 | a trajectory message changes the time of the last message, unless it is the manager's own, and during a search the smoothed velocity, and nothing else |
| MissionRuns.HealthRule | src/modules/mission_manager/MissionManager.cpp:1013-1023 | a tick that serves safe landing reports health exactly if trajectory messages are recent or the pilot flies; other ticks leave it |
| MissionSafety.PilotAuthority | src/modules/mission_manager/MissionManager.cpp:137-228 | in every reachable state a manual mode means each trajectory comes back unchanged; it is overridden exactly while a search is active, and then by a well-formed single point |
| MissionSafety.ActiveAfterTick | src/modules/mission_manager/MissionManager.cpp:490-505 | after a safe-landing tick an active planner means safe landing enabled, trajectory messages recent, not on ground or taking off, not manual, not returning, also for a search started in that tick |
| MissionSafety.EndedSearchHolds | src/modules/mission_manager/MissionManager.cpp:731-778 | a search that ends inside a tick leaves a hold command, unless the vehicle is on the ground or returning |
| MissionSafety.InterventionRule | src/modules/mission_manager/MissionManager.cpp:511-729 | a safe-landing tick starts an action if and only if a landing is triggered, nothing is pending, safe landing and avoidance are live and the ground is bad, or unknown or unhealthy above 1.5 m; then the timer is set and the configured reaction is commanded first; otherwise, with no search and no waypoint pending, nothing is commanded |
| MissionSafety.BusyRule | src/modules/mission_manager/MissionManager.cpp:1016-1029 | an active planner keeps its action in progress over an event if and only if the event is not a tick of another input type at least five seconds after the last action |
| MissionSafety.RunKeepsBusy | src/modules/mission_manager/MissionManager.cpp:1009-1032 | an active planner has an action in progress at every moment of a run if and only if no tick of the run is of that kind |
| MissionSafety.SearchStartsOnIdlePlanner | src/modules/mission_manager/MissionManager.cpp:586-614 | on every run without such a tick, whatever input types are served, a search is never started on an active planner |
| MissionSafety.RestartRule | src/modules/mission_manager/MissionManager.cpp:511-614 | with an active planner, some next tick starts a search anew if and only if no action is in progress and a landing is triggered |
| MissionSafety.InputSwitchRestartsSearch | src/modules/mission_manager/MissionManager.cpp:1016-1029 | a run with a change of input type in which the next safe-landing tick restarts a search under way |
| MissionTiming.TimerStep | src/modules/mission_manager/MissionManager.cpp:1024-1029 | one event never moves the retry timer back, releases an action only after 5 s and never triggers while one is in progress |
| MissionTiming.PendingRule | src/modules/mission_manager/MissionManager.cpp:1013-1029 | after an enabled tick an action is pending if and only if it was before or the tick triggered one, and the timer is less than 5 s old |
| MissionTiming.QuietPeriod | src/modules/mission_manager/MissionManager.cpp:1024-1029 | while an action is pending nothing triggers until 5 s after the timer was last set |
| MissionTiming.TriggersAreSpaced | src/modules/mission_manager/MissionManager.cpp:893-1032 | over every run with a clock that does not run backward, any two triggers of the two handlers are at least 5 s apart, whatever the configuration changes |
| MissionTiming.NothingAfterActiveTick | src/modules/mission_manager/MissionManager.cpp:777-778 | nothing triggers until 5 s after a safe-landing tick that leaves a search active, also one started in that tick |
| MissionTiming.SearchTickTimer | src/modules/mission_manager/MissionManager.cpp:496-505 | a safe-landing tick that sees a search active sets the timer and keeps the action pending, whether the search goes on or ends, exactly when safe landing is enabled and avoidance live; otherwise it leaves the timer alone |
| MissionTiming.QuietAfterSearch | src/modules/mission_manager/MissionManager.cpp:734-778 | after a safe-landing tick that sees a search active, be it the last one, nothing can trigger for 5 s if and only if safe landing was enabled and avoidance live in that tick, or the timer was set at the same time anyway |
| MissionTiming.NothingAfterSearch | src/modules/mission_manager/MissionManager.cpp:490-1032 | the same rule in every reachable state with a clock that does not run backward, as long as no search has been stranded |
| MissionRetrigger.SearchEndsWithoutTimer | src/modules/mission_manager/MissionManager.cpp:496-505 | a reachable search that is ended by disabling safe landing, or by losing avoidance, and is followed by a trigger within 5 s in some run |
| MissionVelocity.SmoothSpeed | src/modules/mission_manager/MissionManager.cpp:190-193 | one smoothing step moves the bound on the planar speed a tenth of the way to the new speed |
| MissionVelocity.SearchSpeedBound | src/modules/mission_manager/MissionManager.cpp:181-193 | over every run the smoothed speed, coming from an initial bound V, is at most v + 0.9^k (V - v) after k steering messages answered at search speeds up to v; speeds configured and never used do not matter |
| MissionVelocity.CommandedSpeed | src/modules/mission_manager/MissionManager.cpp:195-202 | the commanded velocity obeys every speed bound the smoothed one obeys |
| MissionVelocity.AnswerHeadsForWaypoint | src/modules/mission_manager/MissionManager.cpp:185-202 | an answer points straight at the waypoint at exactly the search speed if and only if nothing was smoothed before in the process or the smoothed velocity already is the new one |
| MissionStaleVelocity.LaterSearchMovesAway | src/modules/mission_manager/MissionManager.cpp:188-201 | a run with two searches in which the first answer of the second one leads away from its waypoint, at 0.8 of the search speed |
| MissionReactions.WaypointCommands | src/modules/mission_manager/MissionManager.cpp:663-705 | what a tick commands that goes to the waypoint: a return if and only if the vehicle is at the waypoint's latitude and longitude and within a metre of altitude zero, and otherwise, with a global origin, exactly the waypoint |
| MissionReactions.VehicleOnWaypoint | src/modules/mission_manager/MissionManager.cpp:670-687 | a vehicle standing exactly on the waypoint is told to return if and only if the waypoint lies within a metre of altitude zero, and is sent to where it is otherwise |
| MissionReactions.PlainReaction | src/modules/mission_manager/MissionManager.cpp:511-724 | the reactions that need no more than a command: a hold while the mapper is unhealthy whatever is configured, and otherwise a return, nothing or a hold as configured; planner and target are left alone |
| MissionReactions.WaypointRule | src/modules/mission_manager/MissionManager.cpp:682-705 | away from the waypoint the reaction sends the vehicle there and remembers it, or lands at once where it is to land after the action and has arrived; without a global origin it holds |
| MissionReactions.MoveRule | src/modules/mission_manager/MissionManager.cpp:557-582 | the same for the offset position |
| MissionReactions.ArrivalRule | src/modules/mission_manager/MissionManager.cpp:784-795 | a tick with nothing else under way commands a landing and forgets the target exactly if the vehicle is at it and is to land after the action, and otherwise commands nothing and keeps it |
| MissionReactions.ModeRule | src/modules/mission_manager/MissionManager.cpp:256-289 | a mode change makes the planner idle exactly for manual control, or for mission or take-off on the ground or taking off; it changes nothing else but the mode and an active search's waypoint |
| MissionReactions.TakeoffRule | src/modules/mission_manager/MissionManager.cpp:779-783 | an ended planner becomes idle in a tick exactly while the vehicle takes off |
| MissionReactions.QuietTick | src/modules/mission_manager/MissionManager.cpp:495-1030 | a disabled manager takes over the configuration and does nothing else; another input type at most releases the pending action; with safe landing disabled or messages missing an inactive planner and a target are left alone and nothing is commanded |
| MissionReactions.CollisionRule | src/modules/mission_manager/MissionManager.cpp:893-962 | a collision-avoidance tick acts if and only if it is enabled, the distance known and within the threshold, the vehicle in the air and nothing pending; then the configured action is commanded and the timer set, otherwise nothing |
| MissionLanding.SearchUpdateRule | src/modules/mission_manager/MissionManager.cpp:731-871 | a tick that serves a search: from a landing, landing goes on if and only if the ground allows it and is otherwise a search again or the end, as the planner answers; from a search, a landing begins exactly if a site was found and landing is wanted, and it ends exactly if the pattern is exhausted or landing is not wanted; the waypoint is the planner's new one exactly if there is one and the search neither ended nor begins to land; a hold exactly at the end |
| MissionLanding.SearchEndRule | src/modules/mission_manager/MissionManager.cpp:495-771 | a tick that must not serve the search ends it, with a hold exactly if safe landing is disabled or avoidance lost |
| MissionLanding.ProcessRule | src/modules/mission_manager/MissionManager.cpp:734-778 | work on an active search in any state: the ground, the pilot or a return end it silently, lost avoidance with a hold, otherwise the planner is asked; the timer is set in each case |
| MissionLanding.SearchReaction | src/modules/mission_manager/MissionManager.cpp:586-644 | the reaction by a search: a hold and no search without a global origin or if the planner does not start; otherwise the search starts at the planner's waypoint and is served in the same tick |
| MissionLanding.StartIsAsked | src/modules/mission_manager/MissionManager.cpp:586-614 | a tick counts as starting a search if and only if its outcome depends on whether the planner starts |
| MissionLanding.LandingAnswer | src/modules/mission_manager/MissionManager.cpp:152-170 | while landing every trajectory message is answered with the waypoint and a descent at the crawl speed exactly below the crawl altitude, at the landing speed otherwise, also at unknown height |
| MissionLanding.SearchAnswer | src/modules/mission_manager/MissionManager.cpp:178-202 | while searching the answer holds the search altitude, upward negative, with the waypoint's heading and a horizontal velocity |
| MissionManager.MissionManager.constructor | src/modules/mission_manager/MissionManager.cpp:964-966 | a new manager is in the initial state and satisfies the invariants |
| MissionManager.MissionManager.UpdateObstacleAvoidanceStatus | src/modules/mission_manager/MissionManager.cpp:243-254 | avoidance counts as enabled exactly while trajectory messages are less than 0.5 s old |
| MissionManager.MissionManager.FlightModeCallback | src/modules/mission_manager/MissionManager.cpp:256-289 | specified next state; the invariant is kept; a manual mode leaves no active planner |
| MissionManager.MissionManager.LandedStateCallback | src/modules/mission_manager/MissionManager.cpp:1000-1005 | specified next state, invariant kept |
| MissionManager.MissionManager.OnTrajectoryMessage | src/modules/mission_manager/MissionManager.cpp:137-229 | specified answer and state, invariant kept; forwards unchanged while no search is active |
| MissionManager.MissionManager.LandingSiteSearchHasEnded | src/modules/mission_manager/MissionManager.cpp:873-875 | unsets the override waypoint and nothing else |
| MissionManager.MissionManager.UpdateLandingSiteSearch | src/modules/mission_manager/MissionManager.cpp:798-871 | the three steps of a planner update have the specified effect and commands, whose meaning is `SearchUpdateRule` |
| MissionManager.MissionManager.TriggerReaction | src/modules/mission_manager/MissionManager.cpp:540-724 | the configured reaction has the specified effect and commands |
| MissionManager.MissionManager.ProcessActiveAction | src/modules/mission_manager/MissionManager.cpp:731-795 | work on the active search, reset on take-off or arrival has the specified effect and commands |
| MissionManager.MissionManager.HandleSafeLanding | src/modules/mission_manager/MissionManager.cpp:467-796 | one call has the specified effect and commands |
| MissionManager.MissionManager.HandleSimpleCollisionAvoidance | src/modules/mission_manager/MissionManager.cpp:893-962 | one call has the specified effect and commands |
| MissionManager.MissionManager.DecisionMakerIteration | src/modules/mission_manager/MissionManager.cpp:1009-1030 | one loop iteration has the specified effect and commands and keeps the invariant |
| ActionSafety.LocalKeepsPoint | src/modules/mission_manager/CustomActionHandler.cpp:165-286 | every step of the worker on an action keeps what is known at each point of its program |
| ActionSafety.StepKeepsInvariant | src/modules/mission_manager/CustomActionHandler.cpp:67-178 | every step of worker, reporter, cancellation or arrival, down to single accesses of shared data, keeps the protocol invariant |
| ActionSafety.RunKeepsInvariant | src/modules/mission_manager/CustomActionHandler.cpp:67-286 | hence every interleaving keeps it |
| ActionTheorems.ResponsesAreSound | src/modules/mission_manager/CustomActionHandler.cpp:102-117 | under every interleaving: success is sent only for an action all of whose stages (or whose script) returned success, the progress sent for an action never decreases, a live reporter reads its own action's entries |
| ActionTheorems.OutcomeIsSettled | src/modules/mission_manager/CustomActionHandler.cpp:157-232 | when an action is over its executed stages are numbered 0, 1, ... in order with only the last possibly failed, at most one of them unacknowledged; progress is the share of acknowledged stages; full success, error and cancellation are told apart exactly |
| ActionTheorems.TornResponse | src/modules/mission_manager/CustomActionHandler.cpp:106-113 | a run whose only response says success with progress zero |
| ActionOutcomes.StartRule | src/modules/mission_manager/CustomActionHandler.cpp:150-234 | a started action goes to its first stage if it has stages, to its script if it has only that, and to its end if it has neither |
| ActionOutcomes.SawStopIsRead | src/modules/mission_manager/CustomActionHandler.cpp:237 | the recorded flag is the stop flag as the worker read it before the script, over any event |
| ActionOutcomes.ScriptOutcome | src/modules/mission_manager/CustomActionHandler.cpp:234-263 | over every run: an action without stages that is over has executed its script exactly once if it has one, its condition asks for it and the stop flag was down when read, and not at all otherwise; a script that was not executed has an unknown result |
| ActionOutcomes.UncancelledOutcome | src/modules/mission_manager/CustomActionHandler.cpp:180-263 | on every run without a cancellation an action that is over executed all its stages up to the first failure, or its script exactly once if it is to be executed |
| ActionOutcomes.ResponsesWereRead | src/modules/mission_manager/CustomActionHandler.cpp:102-117 | under every interleaving each response carries a progress and a result its own entry really had, each at the moment it was read, progress first |
| ActionErrors.ErrorsAreTrueAndFinal | src/modules/mission_manager/CustomActionHandler.cpp:102-263 | under every interleaving an error is sent only for an action of which a stage failed or whose script said error, and no later response for it says anything else |
| ActionErrors.ErrorIsSent | src/modules/mission_manager/CustomActionHandler.cpp:102-203 | a run whose only response says error |
| ActionShared.SharedDataRule | src/modules/mission_manager/CustomActionHandler.cpp:71-286 | the stop flag is raised exactly by a cancellation, a failed stage and the end of an action, and lowered exactly after that end; the queue grows exactly by an arrival and is emptied exactly after an action; an announcement is made exactly by an arrival and taken back exactly when the worker is done |
| ActionShared.ArrivalAlone | src/modules/mission_manager/CustomActionHandler.cpp:84-99 | an arrival left alone queues and announces its action exactly if it keeps the distance and does not repeat the last queued one |
| ActionShared.ReporterLeaves | src/modules/mission_manager/CustomActionHandler.cpp:103 | the reporter leaves exactly on the raised flag at its first look or the sentinel at its second |
| ActionShared.ReporterRound | src/modules/mission_manager/CustomActionHandler.cpp:102-117 | a reporter left alone sends one response with the present progress and result and starts over |
| ActionShared.WorkerAlone | src/modules/mission_manager/CustomActionHandler.cpp:119-155 | a waiting worker left alone registers the last queued action, in progress and at zero, and starts its reporter under that number exactly once an action is announced, and does nothing before |
| ActionShared.CancelledActionStops | src/modules/mission_manager/CustomActionHandler.cpp:165-263 | over every run: from a raised stop flag on, once the piece of work under way is over, nothing more is executed or acknowledged before the worker waits for another action |
| ActionReports.ReadIsExact | src/modules/mission_manager/CustomActionHandler.cpp:106 | in every reachable state the progress the reporter reads is the share of acknowledged stages, and 100 if and only if all are (or the script has returned success) |
| ActionReports.FullProgressRule | src/modules/mission_manager/CustomActionHandler.cpp:102-113 | under every interleaving a sent response carries 100 if and only if everything was acknowledged when its progress was read, and then its action is complete; a success response with less was torn between the two reads |
| ActionTheorems.SuccessJoinCompletes | src/modules/mission_manager/CustomActionHandler.cpp:157-162 | after a full success the join ends within six reporter steps whatever is interleaved, with no timing assumption |
| ActionSuccess.SuccessfulActionEnds | src/modules/mission_manager/CustomActionHandler.cpp:157-163 | with no timing assumption, on every run: once all stages of an action (or its script) are acknowledged, a bounded number of worker steps, then a round of the reporter, then two worker steps bring the worker back to waiting, whatever else is interleaved |
| ActionTheorems.RaisedFlagEndsReporter | src/modules/mission_manager/CustomActionHandler.cpp:280-282 | one round of the reporter while the stop flag is raised makes it leave |
| ActionTheorems.LeftUntilJoined | src/modules/mission_manager/CustomActionHandler.cpp:150-162 | over every run a reporter that has left stays away until the worker has joined it |
| ActionTheorems.MissedWindowBlocks | src/modules/mission_manager/CustomActionHandler.cpp:103-162 | a reporter that missed the raised flag without the sentinel never leaves unless a cancellation comes |
| ActionTheorems.JoinCanComplete | src/modules/mission_manager/CustomActionHandler.cpp:102-163 | without a further cancellation the join can end if and only if the reporter has left, the sentinel is set or the flag is raised |
| ActionTheorems.WindowCanBeMissed | src/modules/mission_manager/CustomActionHandler.cpp:280-285 | such a blocked join is reachable, for an action without stages |
| ActionJoin.JoinNeverBlocks | src/modules/mission_manager/CustomActionHandler.cpp:102-162 | over every run in which an iteration of the reporter fits into the time the flag stays raised, the reporter has left whenever the worker is about to join it |
| ActionJoin.WorkerAdvances | src/modules/mission_manager/CustomActionHandler.cpp:129-286 | every step of the worker on an action brings it strictly closer to waiting again, with the reporter gone at the join |
| ActionJoin.EveryActionEnds | src/modules/mission_manager/CustomActionHandler.cpp:119-286 | over every such run each registered action, without stages, failed, cancelled, a script or successful, lets the worker return to waiting within six steps for every stage and fourteen more, before anything else is fetched |
| ActionReports.LateArrivalRule | src/modules/mission_manager/CustomActionHandler.cpp:84-155 | the worker and the reporter stay about the fetched action over an event if and only if the event does not queue another action between fetching and starting the reporter |
| ActionReports.ReporterAnswersForItsAction | src/modules/mission_manager/CustomActionHandler.cpp:119-155 | so they do at every moment of a run if and only if no arrival of the run is late |
| ActionReports.SuccessNamesCompleteAction | src/modules/mission_manager/CustomActionHandler.cpp:102-117 | on every run without a late arrival each sent response names the action its entry was fetched for, and a success names an action all of whose stages (or whose script) returned success |
| ActionReports.LateArrivalMislabels | src/modules/mission_manager/CustomActionHandler.cpp:84-150 | an arrival in that gap gives the reporter the other action's number |
| ActionQueue.QueueRule | src/modules/mission_manager/CustomActionHandler.cpp:86-98 | whoever reads the end of the queue next finds something there after an event if and only if the event neither announces a cleared action to a waiting worker nor clears the queue between the two reads of an arrival |
| ActionQueue.QueueIsNeverReadEmpty | src/modules/mission_manager/CustomActionHandler.cpp:119-125 | on every run without such an event neither thread reads an empty queue; the condition is exact for the queue being filled at every moment |
| ActionQueue.EmptyFetch | src/modules/mission_manager/CustomActionHandler.cpp:92-123 | a reachable state in which the worker has read an empty queue: queueing, clearing and announcing in this order |
| ActionQueue.EmptyCompare | src/modules/mission_manager/CustomActionHandler.cpp:86-285 | a reachable state in which an arrival has read an empty queue |
| CustomActionHandler.CustomActionHandler.constructor | src/modules/mission_manager/CustomActionHandler.cpp:67-81 | a new handler is in the initial protocol state and satisfies the invariant |
| CustomActionHandler.CustomActionHandler.CancellationCallback | src/modules/mission_manager/CustomActionHandler.cpp:71-75 | the cancellation step, invariant kept |
| CustomActionHandler.CustomActionHandler.ActionCallback | src/modules/mission_manager/CustomActionHandler.cpp:84-91 | the first read of an arrival, with the verdict of the 1.5 s guard as input, invariant kept |
| CustomActionHandler.CustomActionHandler.ActionCallbackStep | src/modules/mission_manager/CustomActionHandler.cpp:86-99 | each further step of an arrival: second read, append, announce, invariant kept |
| CustomActionHandler.CustomActionHandler.ProcessCustomActionStep | src/modules/mission_manager/CustomActionHandler.cpp:119-163 | one worker step, invariant kept |
| CustomActionHandler.CustomActionHandler.NewActionCheckStep | src/modules/mission_manager/CustomActionHandler.cpp:119-125 | seeing an announcement and reading the queue, as two steps |
| CustomActionHandler.CustomActionHandler.StartCustomActionStep | src/modules/mission_manager/CustomActionHandler.cpp:141-155 | registering an action and starting its reporter, step by step |
| CustomActionHandler.CustomActionHandler.StartReporterStep | src/modules/mission_manager/CustomActionHandler.cpp:150-155 | the reporter is started with the number of the last queued action, and the worker goes to the first point of the action |
| CustomActionHandler.CustomActionHandler.CloseCustomActionStep | src/modules/mission_manager/CustomActionHandler.cpp:162-285 | clearing the queue, joining and waiting again, step by step |
| CustomActionHandler.CustomActionHandler.LocalStep | src/modules/mission_manager/CustomActionHandler.cpp:165-286 | one step within the execution of an action leads from a point consistent with what was executed to another such point closer to the end; progress never decreases, and nothing more is executed after everything was executed or something has failed |
| CustomActionHandler.CustomActionHandler.ExecuteCustomActionStep | src/modules/mission_manager/CustomActionHandler.cpp:180-286 | that step written back into the last entries of the vectors, the others unchanged |
| CustomActionHandler.CustomActionHandler.SendProgressStatusStep | src/modules/mission_manager/CustomActionHandler.cpp:102-117 | one reporter step as specified, invariant kept; what the responses of a run say is `ResponsesWereRead` and `ErrorsAreTrueAndFinal` |
| CustomActionHandler.CustomActionHandler.UpdateActionProgressFromStage | src/modules/mission_manager/CustomActionHandler.cpp:165-178 | progress is the percentage of acknowledged stages and success holds exactly at the last one; nothing changes when stopped |
| CustomActionHandler.CustomActionHandler.ExecuteStages | src/modules/mission_manager/CustomActionHandler.cpp:180-232 | closed form of the stage loop for every list of stage answers and every moment of cancellation: which stages execute, the final progress and result; entries of other actions unchanged |
| ConfigText.OccursBeside | src/AutopilotManagerConfig.cpp:231-232 | a text without the separator occurs in a separated line exactly when it occurs in one of the two parts |
| ConfigText.IntegerRoundTrip | src/AutopilotManagerConfig.cpp:204 | a printed 32-bit integer parses to itself |
| ConfigText.DoubleRoundTrip | src/AutopilotManagerConfig.cpp:169-180 | a printed number parses to the nearest multiple of one millionth, with its sign, also between -1 and 0 |
| ConfigNumbers.PrintedInteger | src/AutopilotManagerConfig.cpp:164-217 | an integer is printed as its numeral without superfluous zeros, after a minus sign exactly if it is negative |
| ConfigNumbers.PrintedDecimal | src/AutopilotManagerConfig.cpp:169-217 | a number is printed with six digits after the point, rounded to nearest with ties to even, after a minus sign exactly if it is negative |
| ConfigNumbers.NearestIsUnique | src/AutopilotManagerConfig.cpp:169-217 | nearest with ties to even leaves exactly one number of millionths |
| ConfigNumbers.IntegerValue | src/AutopilotManagerConfig.cpp:233-340 | any integer text, with spaces and sign in front and anything but a digit behind, is read as its value in base ten; one beyond 32 bits throws |
| ConfigNumbers.NoIntegerValue | src/AutopilotManagerConfig.cpp:233-340 | without a digit reading an integer throws |
| ConfigNumbers.DecimalValue | src/AutopilotManagerConfig.cpp:246-340 | any text with sign and point is read as the x with x times the power of ten of the digits after the point equal to the integer of all digits |
| ConfigNumbers.WholeValue | src/AutopilotManagerConfig.cpp:246-340 | without a point as the integer of its digits |
| ConfigNumbers.NoDecimalValue | src/AutopilotManagerConfig.cpp:246-340 | without a digit reading a number throws |
| ConfigNumbers.DigitsValue | src/AutopilotManagerConfig.cpp:233-340 | digits are read in base ten, most significant first, leading zeros included |
| ConfigNumbers.PowersOfTen | src/AutopilotManagerConfig.cpp:246-340 | the powers of ten by their recurrence |
| ConfigNumbers.RealPower | src/AutopilotManagerConfig.cpp:246-340 | the divisor of a fraction is that power of ten |
| ConfigNumbers.LoadedField | src/AutopilotManagerConfig.cpp:230-345 | any file that loads: a field holds what the last line that mentions its key converts to |
| ConfigNumbers.UnmentionedField | src/AutopilotManagerConfig.cpp:230-345 | and what it held before if no line mentions its key |
| ConfigNumbers.LoadedDecimal | src/AutopilotManagerConfig.cpp:230-345 | any file that loads: a last line `key=d.f` puts exactly the number d.f into the field, for any number of digits on either side |
| ConfigNumbers.LoadedInteger | src/AutopilotManagerConfig.cpp:230-345 | likewise for integers, which 8-bit fields keep modulo 256 |
| ConfigNumbers.ThrowingFile | src/AutopilotManagerConfig.cpp:230-345 | a file that does not load was read completely before one line, and that line up to the key that throws |
| ConfigNumbers.ValueRule | src/AutopilotManagerConfig.cpp:231 | the value is what follows the first equals sign, and the whole line if there is none |
| ConfigText.LinesStep | src/AutopilotManagerConfig.cpp:230 | a line written without a newline of its own is the first line read |
| ConfigText.UnterminatedLine | src/AutopilotManagerConfig.cpp:230 | the last line may lack its newline; an empty rest is no line |
| ConfigKeySearch.NoKeyInKey | src/AutopilotManagerConfig.cpp:162-210 | none of the 36 keys occurs anywhere in another, and each occurs in itself only at the start |
| ConfigKeySearch.NoKeyInHeader | src/AutopilotManagerConfig.cpp:162 | no key occurs in the header line |
| ConfigKeySearch.NoKeyInNumeral | src/AutopilotManagerConfig.cpp:164-210 | no key occurs in a printed number |
| ConfigKeySearch.NameIsWord | src/AutopilotManagerConfig.cpp:231-342 | keys contain neither the separator nor a newline |
| ConfigFile.ReadKeysResult | src/AutopilotManagerConfig.cpp:231-345 | a line is read without a throw if and only if every key it mentions converts; then exactly the mentioned fields take the line's value |
| ConfigFile.ThrowingLine | src/AutopilotManagerConfig.cpp:231-345 | a line that throws: exactly the mentioned keys before the first one that does not convert take the line's value |
| ConfigRoundTrip.LineMentions | src/AutopilotManagerConfig.cpp:164-210 | a written line mentions its own key, and another key exactly when its value is a text that does |
| ConfigRoundTrip.LastLineDecides | src/AutopilotManagerConfig.cpp:230-346 | after reading, a field holds what the last line that mentions its key assigned |
| ConfigTheorems.LoadedTextIsSingle | src/AutopilotManagerConfig.cpp:230-231 | whatever was written, a text read back is a single line |
| ConfigTheorems.RoundTripExactly | src/AutopilotManagerConfig.cpp:158-353 | for every configuration and every previous content: loading restores every field (numbers to the millionth, the one swapped flag) if and only if no text contains a newline, each text that mentions a key converts to that key's type, and no such text below a key's line has the last word on its value |
| ConfigTheorems.PlainRoundTrip | src/AutopilotManagerConfig.cpp:158-353 | texts without newlines and keys always load; the result is the identity if and only if the two enable flags agree and all numbers are whole millionths; a second round trip changes nothing |
| ConfigTheorems.LaterTextOverwrites | src/AutopilotManagerConfig.cpp:231-345 | a later text that mentions a key replaces the key's value by its own conversion |
| ConfigTheorems.UnreadableTextThrows | src/AutopilotManagerConfig.cpp:231-345 | a text that mentions a key it does not convert to makes loading throw |
| ConfigTheorems.TextNamedAfterKey | src/AutopilotManagerConfig.cpp:231-345 | in particular any text equal to the name of a numeric key |
| AutopilotManagerConfig.AutopilotManagerConfig.constructor | include/AutopilotManagerConfig.hpp:21-67 | every field has its default |
| AutopilotManagerConfig.AutopilotManagerConfig.WriteToFile | src/AutopilotManagerConfig.cpp:158-222 | on success the target holds exactly the file text of the fields; when opening or renaming fails it keeps its previous content |
| AutopilotManagerConfig.AutopilotManagerConfig.InitFromFile | src/AutopilotManagerConfig.cpp:224-353 | a missing file changes nothing; otherwise the fields and the outcome are those of loading the text into the old fields, partial assignments before a throw included (`LoadedField`, `LoadedDecimal`, `ThrowingFile`) |
| AutopilotManagerConfig.FirstLine | src/AutopilotManagerConfig.cpp:230 | one line is split off the front of the remaining file |

## Left out

- IEEE rounding: filter, velocities and percentages are real numbers; the conversion of an estimate outside the 64-bit range to an integer, undefined in the original, is not modelled.
- The exponential function: only that it is positive, monotone and one at zero is assumed.
- FilterRuns.GenuineColdStart: after convergence the cold start is covered for round trips up to 2.396 ms only (`GenuineLinkConverges` covers the whole gate up to convergence). For longer ones the proof would need how fast the gains fall, while only monotonicity of the exponential is assumed, and a finer measure of the error than the quadratic form.
- FilterLock.HonestLinkKeepsLock: after convergence noise up to 1.2 ms, drift up to a sixteenth of the noise per sample and fewer than 2^32 samples are sufficient conditions, not the exact limits; for a converged filter `ConvergedLinkSettles` takes any noise and drift that leave room inside the outlier gate.
- FilterHistory.JumpRecovery: the closed form is for a filter locked exactly on a constant offset; for a noisy one see `NoisyJumpRecovery`.
- ConfigText.DoubleRoundTrip: `std::stod` and `std::stoi` are modelled for plain decimal notation; exponents, hexadecimal digits, infinities, NaN and values too large for a double are not. A file holds them only if a text mentions a numeric key, someone edited it, or a field that a D-Bus message set to infinity or NaN was written.
- AutopilotManagerConfig.AutopilotManagerConfig.InitFromFile: the 36 fields are one table indexed by key instead of 36 variables, and the two long lists of statements are loops over that table, in the same order.
- Landing planner, landing mapper and image processing: external packages; their answers are arbitrary inputs, restricted only by the phases a planner goes through.
- MissionVelocity.SearchSpeedBound: the Euclidean distance used to normalise is an input required to be the true distance, since square roots are not computed.
- MissionManager.MissionManager.OnTrajectoryMessage: an override waypoint is finite or unset as a whole; the planner's waypoints are finite.
- Races inside one mission-manager callback: callbacks and ticks are atomic events.
- The stationarity debounce, position and health telemetry, and the coordinate transformation: their results are inputs of a tick.
- CustomActionHandler.CustomActionHandler.ActionCallback: time is an input, so that the 1.5 s guard may answer either way; arrivals follow one another, as the callbacks of one subscription do.
- CustomActionHandler.CustomActionHandler.ExecuteStages: waiting for a stage's transition condition is one step and takes no modelled time.
- ActionJoin.EveryActionEnds: time is counted in steps; that the reporter's iteration fits into the time the flag stays raised is the condition `Windowed`, not derived from the 100 ms and 200 ms sleeps and the duration of a send.
- Memory-level faults of the custom action handler (references into reallocated vectors, captured locals, the number a cancellation logs before any action was registered): entries are addressed by value.
- Whether every accepted custom action is eventually executed: the original discards arrivals during processing.
- Writing to a full disk, the D-Bus messages of the configuration, status texts, ROS topics, visualisation, command line and Python scripts: input and output without a property of this kind.
- Sensor and landing manager health checks and collision-avoidance regions of interest: single comparisons and field copies without state that spans calls, so that there is nothing to prove beyond reading them.
