/** What each callback and each tick of the mission manager does to its state. */
module MissionSteps {
  import opened Options
  import opened MissionTypes

  const RETRY_MILLISECONDS: int := 5000

  function Initial(now: int, rosNow: real, config: Config): State {
    State(config, false, now, UnknownMode, UnknownLanded, UnknownLanded, false, false, rosNow,
          Idle, None, None, None, true)
  }

  /** Obstacle avoidance counts as enabled while trajectory messages are less than 0.5 s old. */
  function UpdateAvoidance(s: State, rosNow: real): State {
    s.(avoidanceEnabled := rosNow - s.timeLastTraj < 0.5)
  }

  /** The planner has ended its search: the waypoint override is unset. */
  function EndSearch(s: State): State {
    s.(phase := Ended, localOverride := None)
  }

  predicate HigherThan(height: Option<real>, bound: real) {
    height.Some? && height.value > bound
  }

  predicate MustHold(t: TickInput) {
    t.mapper.UNHEALTHY? && HigherThan(t.height, 1.5)
  }

  predicate MustReact(t: TickInput) {
    t.mapper.CAN_NOT_LAND? || (t.mapper.UNKNOWN? && HigherThan(t.height, 1.5))
  }

  predicate Near(x: real, y: real, tolerance: real) {
    -tolerance <= x - y <= tolerance
  }

  function PlannerWaypoint(t: TickInput): LocalWaypoint {
    LocalWaypoint(t.planner.waypointNorth, t.planner.waypointEast, t.yaw)
  }

  /** The configured reaction to a place where the vehicle cannot land. */
  function React(s: State, t: TickInput): (State, seq<Command>) {
    match t.config.safeLandingOnNoSafeLand
    case RTL => (s, [ReturnToLaunch])
    case MOVE_XYZ_WRT_CURRENT =>
      if s.originSet then (s.(globalTarget := Some(t.offsetTarget)), [GoTo(t.offsetTarget)]) else (s, [Hold])
    case LANDING_SITE_SEARCH =>
      if s.originSet && s.avoidanceEnabled then
        if Active(t.planner.start) then
          (s.(phase := t.planner.start, localOverride := Some(PlannerWaypoint(t))), [])
        else
          (s.(phase := t.planner.start, localOverride := None), [Hold])
      else
        (s.(localOverride := None), [Hold])
    case GO_TO_WAYPOINT =>
      var waypoint := t.config.globalPositionWaypoint;
      // The altitude is compared with a remembered one that the source never sets.
      if Near(waypoint.latitude, t.position.latitude, 0.00001)
         && Near(waypoint.longitude, t.position.longitude, 0.00001)
         && Near(0.0, t.position.altitude, 1.0) then
        (s, [ReturnToLaunch])
      else if s.originSet then
        (s.(globalTarget := Some(waypoint)), [GoTo(waypoint)])
      else
        (s, [Hold])
    case LAND => (s, [])
    case UNRECOGNISED => (s, [])
    case _ => (s, [Hold])
  }

  /** Whether the tick takes a landing out of the autopilot's hands. */
  predicate Intervenes(s: State, t: TickInput) {
    !s.actionInProgress && LandingTriggered(s.flightMode, s.landedState) && (MustHold(t) || MustReact(t))
  }

  function Intervene(s: State, t: TickInput): (State, seq<Command>) {
    var (s', commands) := if MustHold(t) then (s, [Hold]) else React(s, t);
    (s'.(actionInProgress := true, lastTime := t.now), commands)
  }

  /** One planner update while a search is active, and the commands it gives rise to. */
  function UpdateSearch(s: State, t: TickInput): (State, seq<Command>) {
    var troubled := t.mapper.UNHEALTHY? || t.mapper.UNKNOWN? || t.mapper.CAN_NOT_LAND?;
    var phase :=
      if s.phase.Landing? then
        if !troubled then Landing else if t.planner.abortEndsSearch then Ended else Searching
      else
        match t.planner.update
        case KeepSearching => Searching
        case SiteFound => Landing
        case PatternExhausted => Ended;
    if !s.phase.Landing? && phase.Landing? then
      if t.config.safeLandingTryLandingAfterAction then (s.(phase := Landing), []) else (EndSearch(s), [Hold])
    else if phase.Ended? then
      (EndSearch(s), [Hold])
    else if t.planner.waypointUpdated then
      (s.(phase := phase, localOverride := Some(PlannerWaypoint(t))), [])
    else
      (s.(phase := phase), [])
  }

  predicate MustEndSearch(s: State) {
    || OnGroundOrTakingOff(s.landedState)
    || UnderManualControl(s.flightMode)
    || s.flightMode.ReturnToLaunchMode?
    || !s.avoidanceEnabled
  }

  predicate Arrived(target: GlobalPosition, position: GlobalPosition) {
    && Near(target.latitude, position.latitude, 0.00001)
    && Near(target.longitude, position.longitude, 0.00001)
    && Near(target.altitude, position.altitude, 1.0)
  }

  /** Work on whatever action is under way. */
  function ProcessActive(s: State, t: TickInput): (State, seq<Command>) {
    if Active(s.phase) then
      var (s', commands) :=
        if MustEndSearch(s) then
          (EndSearch(s),
           if OnGroundOrTakingOff(s.landedState) || UnderManualControl(s.flightMode)
              || s.flightMode.ReturnToLaunchMode? then [] else [Hold])
        else
          UpdateSearch(s, t);
      (s'.(lastTime := t.now), commands)
    else if s.phase.Ended? && s.landedState.TakingOff? then
      (s.(phase := Idle), [])
    else if s.globalTarget.Some? && Arrived(s.globalTarget.value, t.position)
            && t.config.safeLandingTryLandingAfterAction then
      (s.(globalTarget := None), [Land])
    else
      (s, [])
  }

  function HandleSafeLanding(s: State, t: TickInput): (State, seq<Command>) {
    var s1 := UpdateAvoidance(s, t.rosNow);
    if !t.config.safeLandingEnabled || !s1.avoidanceEnabled then
      if Active(s1.phase) then (EndSearch(s1), [Hold]) else (s1, [])
    else
      var (s2, commands2) := if Intervenes(s1, t) then Intervene(s1, t) else (s1, []);
      var (s3, commands3) := ProcessActive(s2, t);
      (s3, commands2 + commands3)
  }

  predicate ObstacleAhead(s: State, t: TickInput) {
    && t.config.simpleCollisionAvoidEnabled
    && t.distance.Some?
    && t.distance.value <= t.config.simpleCollisionAvoidDistanceThreshold
    && s.landedState.InAir?
    && !s.actionInProgress
  }

  function CollisionCommands(reaction: Reaction): seq<Command> {
    match reaction
    case RTL => [ReturnToLaunch]
    case LAND => [Land]
    case LANDING_SITE_SEARCH => []
    case UNRECOGNISED => []
    case _ => [Hold]
  }

  function HandleCollisionAvoidance(s: State, t: TickInput): (State, seq<Command>) {
    if ObstacleAhead(s, t) then
      (s.(actionInProgress := true, lastTime := t.now), CollisionCommands(t.config.simpleCollisionAvoidAction))
    else
      (s, [])
  }

  /** After an action it takes five seconds before the next one may be triggered. */
  function ReleaseAction(s: State, now: int): State {
    if s.actionInProgress && now - s.lastTime >= RETRY_MILLISECONDS then s.(actionInProgress := false) else s
  }

  /** One iteration of the decision loop. */
  function TickStep(s0: State, t: TickInput): (State, seq<Command>) {
    var s := s0.(config := t.config);
    if !t.config.autopilotManagerEnabled then
      (s, [])
    else
      var (s', commands) :=
        match t.config.decisionMakerInputType
        case SafeLanding =>
          var (h, c) := HandleSafeLanding(s, t);
          (h.(healthy := h.avoidanceEnabled || UnderManualControl(h.flightMode)), c)
        case SimpleCollisionAvoidance => HandleCollisionAvoidance(s, t)
        case OtherInput => (s, []);
      (ReleaseAction(s', t.now), commands)
  }

  /** Whether a tick triggers an action, in either of the two handlers. */
  predicate Triggers(s: State, t: TickInput) {
    t.config.autopilotManagerEnabled &&
    match t.config.decisionMakerInputType
    case SafeLanding =>
      t.config.safeLandingEnabled && t.rosNow - s.timeLastTraj < 0.5 && Intervenes(s, t)
    case SimpleCollisionAvoidance => ObstacleAhead(s, t)
    case OtherInput => false
  }

  /** Whether a tick asks the planner to start a search. */
  predicate StartsSearch(s: State, t: TickInput) {
    && t.config.autopilotManagerEnabled
    && t.config.decisionMakerInputType.SafeLanding?
    && Triggers(s, t)
    && !MustHold(t)
    && t.config.safeLandingOnNoSafeLand.LANDING_SITE_SEARCH?
    && s.originSet
  }

  function FlightModeStep(s: State, mode: FlightMode): State {
    if mode == s.flightMode then
      s
    else
      var s' := s.(flightMode := mode);
      if (OnGroundOrTakingOff(s.landedState) && (mode.Mission? || mode.Takeoff?)) || UnderManualControl(mode) then
        s'.(phase := Idle, localOverride := if Active(s.phase) then None else s.localOverride)
      else
        s'
  }

  function LandedStateStep(s: State, landed: LandedState): State {
    if landed == s.landedState then s else s.(previousLandedState := s.landedState, landedState := landed)
  }

  /** The search velocity: the unit vector from the waypoint to the vehicle, scaled. A zero vector
      has no direction and stays zero. */
  function RawVelocity(waypoint: LocalWaypoint, m: TrajectoryInput, speed: real): Velocity {
    var dx, dy := m.posX - waypoint.x, m.posY - waypoint.y;
    if m.distance > 0.0 then
      Velocity(dx / m.distance * speed, dy / m.distance * speed)
    else
      Velocity(dx * speed, dy * speed)
  }

  function Smooth(previous: Option<Velocity>, raw: Velocity): Velocity {
    var v := if previous.Some? then previous.value else raw;
    Velocity(v.x * 0.9 + raw.x * 0.1, v.y * 0.9 + raw.y * 0.1)
  }

  predicate Steers(s: State, m: TrajectoryInput) {
    !m.fromAvoidance && Active(s.phase) && s.localOverride.Some? && !s.phase.Landing?
  }

  /** The answer to a trajectory message, and the state after it. */
  function TrajectoryStep(s: State, m: TrajectoryInput): (State, Option<TrajectoryMessage>) {
    if m.fromAvoidance then
      (s, None)
    else
      var s1 := s.(timeLastTraj := m.time);
      if Active(s.phase) && s.localOverride.Some? then
        var waypoint := s.localOverride.value;
        if s.phase.Landing? then
          var speed := if m.height.Some? && m.height.value < m.crawlAltitude then m.crawlSpeed else m.landingSpeed;
          (s1, Some(m.message.(
             validPoints := 1, posX := Some(waypoint.x), posY := Some(waypoint.y), posZ := None,
             posYaw := Some(waypoint.yaw), velX := None, velY := None, velZ := Some(speed))))
        else
          var v := Smooth(s.smoothed, RawVelocity(waypoint, m, s.config.landingSiteSearchSpeed));
          (s1.(smoothed := Some(v)), Some(m.message.(
             validPoints := 1, posX := None, posY := None, posZ := Some(-m.searchAltitude),
             posYaw := Some(waypoint.yaw), velX := Some(-v.x), velY := Some(-v.y), velZ := None)))
      else
        (s1, Some(m.message))
  }

  function Next(s: State, e: Event): State {
    match e
    case Tick(t) => TickStep(s, t).0
    case FlightModeChange(mode) => FlightModeStep(s, mode)
    case LandedStateChange(landed) => LandedStateStep(s, landed)
    case Trajectory(m) => TrajectoryStep(s, m).0
    case OriginReceived => s.(originSet := true)
  }

  function Run(s: State, events: seq<Event>): State
    decreases events
  {
    if events == [] then s else Run(Next(s, events[0]), events[1..])
  }
}
