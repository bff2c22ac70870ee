/** Values the mission manager works on. A double that may be NaN is an option: None stands for a
    value that is not finite. Times are in milliseconds (decision clock) or seconds (ROS clock). */
module MissionTypes {

  import opened Options

  datatype FlightMode =
    | UnknownMode | Ready | Takeoff | HoldMode | Mission | ReturnToLaunchMode | LandMode | Offboard | FollowMe
    | Manual | Altctl | Posctl | Acro | Stabilized | Rattitude

  datatype LandedState = UnknownLanded | OnGround | InAir | TakingOff | LandingNow

  datatype MapperState = UNKNOWN | UNHEALTHY | CAN_LAND | CAN_NOT_LAND | TOO_HIGH | CLOSE_TO_GROUND

  /** The phases of the external landing planner, as far as its users can tell them apart. */
  datatype Phase = Idle | Searching | Landing | Ended

  datatype InputType = SafeLanding | SimpleCollisionAvoidance | OtherInput

  /** The configured reaction, as the string constants of the configuration. */
  datatype Reaction =
    | HOLD | RTL | MOVE_XYZ_WRT_CURRENT | LANDING_SITE_SEARCH | GO_TO_WAYPOINT_XYZ | MOVE_LLA_WRT_CURRENT
    | GO_TO_WAYPOINT | LAND | SCRIPT_CALL | API_CALL | UNRECOGNISED

  datatype GlobalPosition = GlobalPosition(latitude: real, longitude: real, altitude: real)

  datatype LocalWaypoint = LocalWaypoint(x: real, y: real, yaw: real)

  datatype Velocity = Velocity(x: real, y: real)

  datatype Config = Config(
    autopilotManagerEnabled: bool,
    decisionMakerInputType: InputType,
    safeLandingEnabled: bool,
    safeLandingOnNoSafeLand: Reaction,
    safeLandingTryLandingAfterAction: bool,
    landingSiteSearchSpeed: real,
    globalPositionWaypoint: GlobalPosition,
    simpleCollisionAvoidEnabled: bool,
    simpleCollisionAvoidDistanceThreshold: real,
    simpleCollisionAvoidAction: Reaction)

  datatype Command = Hold | ReturnToLaunch | Land | GoTo(position: GlobalPosition)

  datatype UpdateAnswer = KeepSearching | SiteFound | PatternExhausted

  /** What the planner answers during one tick, should it be asked. */
  datatype PlannerAnswers = PlannerAnswers(
    start: Phase,
    update: UpdateAnswer,
    abortEndsSearch: bool,
    waypointUpdated: bool,
    waypointNorth: real,
    waypointEast: real)

  /** Everything one iteration of the decision loop reads from outside. */
  datatype TickInput = TickInput(
    config: Config,
    now: int,
    rosNow: real,
    mapper: MapperState,
    height: Option<real>,
    distance: Option<real>,
    yaw: real,
    position: GlobalPosition,
    offsetTarget: GlobalPosition,
    planner: PlannerAnswers)

  /** First point of a trajectory message; `rest` is everything that is passed through. */
  datatype TrajectoryMessage = TrajectoryMessage(
    validPoints: nat,
    posX: Option<real>, posY: Option<real>, posZ: Option<real>, posYaw: Option<real>,
    velX: Option<real>, velY: Option<real>, velZ: Option<real>,
    rest: seq<Option<real>>)

  /** `distance` is the length of the vector from the override waypoint to the vehicle. */
  datatype TrajectoryInput = TrajectoryInput(
    fromAvoidance: bool,
    time: real,
    message: TrajectoryMessage,
    posX: real,
    posY: real,
    distance: real,
    height: Option<real>,
    landingSpeed: real,
    crawlSpeed: real,
    crawlAltitude: real,
    searchAltitude: real)

  datatype State = State(
    config: Config,
    actionInProgress: bool,
    lastTime: int,
    flightMode: FlightMode,
    landedState: LandedState,
    previousLandedState: LandedState,
    originSet: bool,
    avoidanceEnabled: bool,
    timeLastTraj: real,
    phase: Phase,
    localOverride: Option<LocalWaypoint>,
    globalTarget: Option<GlobalPosition>,
    smoothed: Option<Velocity>,
    healthy: bool)

  datatype Event =
    | Tick(input: TickInput)
    | FlightModeChange(mode: FlightMode)
    | LandedStateChange(landed: LandedState)
    | Trajectory(trajectory: TrajectoryInput)
    | OriginReceived

  predicate Active(phase: Phase) {
    phase.Searching? || phase.Landing?
  }

  predicate UnderManualControl(mode: FlightMode) {
    mode.Manual? || mode.Altctl? || mode.Posctl? || mode.Acro? || mode.Stabilized? || mode.Rattitude?
  }

  predicate LandingTriggered(mode: FlightMode, landed: LandedState) {
    mode.LandMode? || (mode.Mission? && landed.LandingNow?)
  }

  predicate OnGroundOrTakingOff(landed: LandedState) {
    landed.OnGround? || landed.TakingOff?
  }
}
