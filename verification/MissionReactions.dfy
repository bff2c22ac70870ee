/** What the reactions command: the configured waypoint when the vehicle is already there, an offset
    position, a landing on arrival, a reset before take-off, and collision avoidance. */
module MissionReactions {
  import opened MissionSteps
  import opened MissionTypes
  import opened Options

  predicate AtLatLon(waypoint: GlobalPosition, position: GlobalPosition) {
    && Near(waypoint.latitude, position.latitude, 0.00001)
    && Near(waypoint.longitude, position.longitude, 0.00001)
  }

  /** The tick reacts to a place where the vehicle cannot land by going to the waypoint. */
  predicate GoesToWaypoint(s: State, t: TickInput) {
    && t.config.autopilotManagerEnabled
    && t.config.decisionMakerInputType.SafeLanding?
    && Triggers(s, t)
    && !MustHold(t)
    && t.config.safeLandingOnNoSafeLand.GO_TO_WAYPOINT?
  }

  lemma ProcessNeverReturns(s: State, t: TickInput)
    ensures ReturnToLaunch !in ProcessActive(s, t).1
    ensures forall p :: GoTo(p) !in ProcessActive(s, t).1
  {
  }

  /** What a tick commands that reacts by going to the waypoint: a return, the waypoint or a hold first,
      and neither a return nor another position after it. */
  lemma WaypointCommands(s: State, t: TickInput)
    requires GoesToWaypoint(s, t)
    ensures var waypoint, commands := t.config.globalPositionWaypoint, TickStep(s, t).1;
            && (ReturnToLaunch in commands <==>
                  AtLatLon(waypoint, t.position) && -1.0 <= t.position.altitude <= 1.0)
            && (forall p :: GoTo(p) in commands <==>
                  p == waypoint && ReturnToLaunch !in commands && s.originSet)
  {
    var c := UpdateAvoidance(s.(config := t.config), t.rosNow);
    var (s2, first) := Intervene(c, t);
    ProcessNeverReturns(s2, t);
    var more := ProcessActive(s2, t).1;
    hide ProcessActive;
    assert TickStep(s, t).1 == first + more;
  }

  /** A vehicle that stands exactly on the configured waypoint is told to return if and only if the
      waypoint lies within a metre of altitude zero; anywhere else it is sent to where it already is. */
  lemma VehicleOnWaypoint(s: State, t: TickInput)
    requires GoesToWaypoint(s, t) && s.originSet
    requires t.position == t.config.globalPositionWaypoint
    ensures ReturnToLaunch in TickStep(s, t).1 <==> -1.0 <= t.position.altitude <= 1.0
    ensures GoTo(t.position) in TickStep(s, t).1 <==> !(-1.0 <= t.position.altitude <= 1.0)
  {
    WaypointCommands(s, t);
    hide TickStep;
  }

  // ----- other reactions and commands

  /** A safe-landing tick reacts to a place where the vehicle cannot land. */
  predicate Reacts(s: State, t: TickInput) {
    && t.config.autopilotManagerEnabled
    && t.config.decisionMakerInputType.SafeLanding?
    && Triggers(s, t)
    && !MustHold(t)
  }

  /** The vehicle is within about a metre of the target. */
  predicate AtTarget(target: GlobalPosition, position: GlobalPosition) {
    && -0.00001 <= target.latitude - position.latitude <= 0.00001
    && -0.00001 <= target.longitude - position.longitude <= 0.00001
    && -1.0 <= target.altitude - position.altitude <= 1.0
  }

  /** The reactions that need no more than a command, with nothing else under way: a hold while the mapper is
      unhealthy whatever is configured, a return, nothing, or a hold; planner and target stay as they were. */
  lemma PlainReaction(s: State, t: TickInput)
    requires t.config.autopilotManagerEnabled && t.config.decisionMakerInputType.SafeLanding? && Triggers(s, t)
    requires !Active(s.phase) && !(s.phase == Ended && s.landedState == TakingOff) && s.globalTarget == None
    requires var r := t.config.safeLandingOnNoSafeLand;
             t.mapper == UNHEALTHY
             || (r != MOVE_XYZ_WRT_CURRENT && r != LANDING_SITE_SEARCH && r != GO_TO_WAYPOINT)
    ensures var (s', commands), r := TickStep(s, t), t.config.safeLandingOnNoSafeLand;
            && commands == (if t.mapper == UNHEALTHY then [Hold]
                            else if r == RTL then [ReturnToLaunch]
                            else if r == LAND || r == UNRECOGNISED then []
                            else [Hold])
            && s'.phase == s.phase && s'.localOverride == s.localOverride && s'.globalTarget == None
  {
    var c := UpdateAvoidance(s.(config := t.config), t.rosNow);
    var (s2, first) := Intervene(c, t);
    assert TickStep(s, t).1 == first + ProcessActive(s2, t).1;
    hide UpdateSearch, EndSearch, Intervenes, Arrived;
  }

  /** What a tick has done after sending the vehicle to p: a landing follows at once if it is already there
      and is to land after the action; otherwise p is remembered for its arrival. */
  predicate SentTo(t: TickInput, p: GlobalPosition, target: Option<GlobalPosition>, commands: seq<Command>) {
    if AtTarget(p, t.position) && t.config.safeLandingTryLandingAfterAction then
      commands == [GoTo(p), Land] && target == None
    else
      commands == [GoTo(p)] && target == Some(p)
  }

  /** Going to an offset position: to it if the global origin is known, and a hold otherwise. */
  lemma MoveRule(s: State, t: TickInput)
    requires Reacts(s, t) && t.config.safeLandingOnNoSafeLand.MOVE_XYZ_WRT_CURRENT?
    requires !Active(s.phase) && !(s.phase == Ended && s.landedState == TakingOff)
    ensures var (s', commands) := TickStep(s, t);
            && (s.originSet ==> SentTo(t, t.offsetTarget, s'.globalTarget, commands))
            && (!s.originSet ==> commands != [] && commands[0] == Hold)
            && s'.phase == s.phase && s'.localOverride == s.localOverride && s'.lastTime == t.now
  {
    var c := UpdateAvoidance(s.(config := t.config), t.rosNow);
    var (s2, first) := Intervene(c, t);
    assert TickStep(s, t).1 == first + ProcessActive(s2, t).1;
    hide UpdateSearch, EndSearch, Intervenes;
  }

  /** Going to the configured waypoint, from a place that is not the waypoint: likewise. */
  lemma WaypointRule(s: State, t: TickInput)
    requires GoesToWaypoint(s, t) && !AtLatLon(t.config.globalPositionWaypoint, t.position)
    requires !Active(s.phase) && !(s.phase == Ended && s.landedState == TakingOff)
    ensures var (s', commands) := TickStep(s, t);
            && (s.originSet ==> SentTo(t, t.config.globalPositionWaypoint, s'.globalTarget, commands))
            && (!s.originSet ==> commands != [] && commands[0] == Hold)
            && s'.phase == s.phase && s'.localOverride == s.localOverride && s'.lastTime == t.now
  {
    var c := UpdateAvoidance(s.(config := t.config), t.rosNow);
    var (s2, first) := Intervene(c, t);
    assert TickStep(s, t).1 == first + ProcessActive(s2, t).1;
    hide UpdateSearch, EndSearch, Intervenes;
  }

  /** On arrival at the position it was sent to: a safe-landing tick that starts nothing, with no search
      under way and none to be reset, commands a landing and forgets the target exactly if the vehicle is
      at the target and is to land after the action; otherwise it commands nothing and keeps the target. */
  lemma ArrivalRule(s: State, t: TickInput)
    requires t.config.autopilotManagerEnabled && t.config.decisionMakerInputType.SafeLanding?
    requires t.config.safeLandingEnabled && t.rosNow - s.timeLastTraj < 0.5 && !Triggers(s, t)
    requires !Active(s.phase) && !(s.phase == Ended && s.landedState == TakingOff)
    ensures var (s', commands) := TickStep(s, t);
            var arrived := s.globalTarget.Some? && AtTarget(s.globalTarget.value, t.position)
                           && t.config.safeLandingTryLandingAfterAction;
            && commands == (if arrived then [Land] else [])
            && s'.globalTarget == (if arrived then None else s.globalTarget)
            && s'.phase == s.phase && s'.localOverride == s.localOverride && s'.lastTime == s.lastTime
  {
    var c := UpdateAvoidance(s.(config := t.config), t.rosNow);
    assert !Intervenes(c, t);
    hide UpdateSearch;
    assert TickStep(s, t).1 == [] + ProcessActive(c, t).1;
  }

  /** When a flight mode change makes the planner idle again: on a change to manual control, or to mission
      or take-off while the vehicle is on the ground or taking off. Nothing else is changed by it but the
      mode and, if a search was active, its waypoint. */
  lemma ModeRule(s: State, mode: FlightMode)
    ensures var s' := FlightModeStep(s, mode);
            var resets := mode != s.flightMode
                          && (UnderManualControl(mode)
                              || ((mode == Mission || mode == Takeoff)
                                  && (s.landedState == OnGround || s.landedState == TakingOff)));
            && s'.flightMode == mode
            && s'.phase == (if resets then Idle else s.phase)
            && s'.localOverride == (if resets && Active(s.phase) then None else s.localOverride)
            && s' == s.(flightMode := mode, phase := s'.phase, localOverride := s'.localOverride)
  {
  }

  /** A planner whose search has ended is made idle by a tick while the vehicle takes off. */
  lemma TakeoffRule(s: State, t: TickInput)
    requires t.config.autopilotManagerEnabled && t.config.decisionMakerInputType.SafeLanding?
    requires t.config.safeLandingEnabled && t.rosNow - s.timeLastTraj < 0.5 && !Triggers(s, t)
    requires s.phase == Ended
    ensures var (s', commands) := TickStep(s, t);
            && s'.phase == (if s.landedState == TakingOff then Idle else Ended)
            && (s.landedState == TakingOff ==> commands == [] && s'.globalTarget == s.globalTarget)
  {
    hide UpdateSearch;
    assert !Intervenes(UpdateAvoidance(s.(config := t.config), t.rosNow), t);
  }

  /** Ticks that do nothing: a disabled manager takes over the configuration and no more; another input type
      at most releases the pending action; and with safe landing disabled or trajectory messages missing a
      planner that is not active is left alone, as is a target. */
  lemma QuietTick(s: State, t: TickInput)
    ensures var (s', commands) := TickStep(s, t);
            && (!t.config.autopilotManagerEnabled ==> commands == [] && s' == s.(config := t.config))
            && (t.config.decisionMakerInputType.OtherInput? ==>
                  commands == [] && s' == s.(config := t.config, actionInProgress := s'.actionInProgress))
            && (t.config.decisionMakerInputType.SafeLanding? && !Active(s.phase)
                && (!t.config.safeLandingEnabled || t.rosNow - s.timeLastTraj >= 0.5) ==>
                  && commands == []
                  && s' == s.(config := t.config, actionInProgress := s'.actionInProgress,
                              avoidanceEnabled := s'.avoidanceEnabled, healthy := s'.healthy))
  {
    hide Intervene, ProcessActive, HandleCollisionAvoidance;
  }

  // ----- collision avoidance

  /** What each configured action commands when an obstacle is ahead. */
  predicate AvoidanceCommand(reaction: Reaction, commands: seq<Command>) {
    && (commands == [ReturnToLaunch] <==> reaction == RTL)
    && (commands == [Land] <==> reaction == LAND)
    && (commands == [] <==> reaction == LANDING_SITE_SEARCH || reaction == UNRECOGNISED)
    && (commands == [Hold] <==> reaction != RTL && reaction != LAND && reaction != LANDING_SITE_SEARCH
                                && reaction != UNRECOGNISED)
  }

  /** A collision-avoidance tick acts if and only if it is enabled, the distance is known and within the
      threshold, the vehicle is in the air and no action is pending; then the action is pending, the timer
      is set and the configured action commanded. Otherwise it commands nothing. */
  lemma CollisionRule(s: State, t: TickInput)
    requires t.config.autopilotManagerEnabled && t.config.decisionMakerInputType.SimpleCollisionAvoidance?
    ensures var (s', commands) := TickStep(s, t);
            var acts := && t.config.simpleCollisionAvoidEnabled
                        && t.distance.Some?
                        && t.distance.value <= t.config.simpleCollisionAvoidDistanceThreshold
                        && s.landedState == InAir && !s.actionInProgress;
            && (acts <==> !s.actionInProgress && s'.actionInProgress)
            && (acts ==> s'.lastTime == t.now && AvoidanceCommand(t.config.simpleCollisionAvoidAction, commands))
            && (!acts ==> commands == [] && s'.lastTime == s.lastTime)
            && s' == s.(config := t.config, actionInProgress := s'.actionInProgress, lastTime := s'.lastTime)
  {
  }
}
