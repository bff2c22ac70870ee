/** The 36 keys of the configuration file, in the order of the file, and why no key can be mistaken
    for another: the reader looks for a key anywhere in the line. */
module ConfigKeys {

  datatype Key =
    | AutopilotManagerEnabled | DecisionMakerInputType | ScriptToCall
    | ApiCall | LocalPositionOffsetX | LocalPositionOffsetY
    | LocalPositionOffsetZ | LocalPositionWaypointX | LocalPositionWaypointY
    | LocalPositionWaypointZ | GlobalPositionOffsetLat | GlobalPositionOffsetLon
    | GlobalPositionOffsetAltAmsl | GlobalPositionWaypointLat | GlobalPositionWaypointLon
    | GlobalPositionWaypointAltAmsl | CameraOffsetX | CameraOffsetY
    | CameraYaw | SafeLandingEnabled | SafeLandingAreaSquareSize
    | SafeLandingDistanceToGround | SafeLandingOnNoSafeLand | SafeLandingTryLandingAfterAction
    | LandingSiteSearchSpeed | LandingSiteSearchMaxDistance | LandingSiteSearchMinHeight
    | LandingSiteSearchMinDistanceAfterAbort | LandingSiteSearchArrivalRadius | LandingSiteSearchAssessTime
    | LandingSiteSearchStrategy | LandingSiteSearchSpiralSpacing | LandingSiteSearchSpiralPoints
    | SimpleCollisionAvoidEnabled | SimpleCollisionAvoidDistanceThreshold | SimpleCollisionAvoidActionOnConditionTrue

  datatype Kind = Flag | Integer | Double | Text

  const KEY_COUNT: nat := 36

  /** Keys with the same first word or words. */
  datatype Group = Autopilot | Decision | Script | Api | Local | Global | Camera | Safe | Landing | Simple

  function GroupOf(k: Key): Group {
    match k
    case AutopilotManagerEnabled => Group.Autopilot
    case DecisionMakerInputType => Group.Decision
    case ScriptToCall => Group.Script
    case ApiCall => Group.Api
    case LocalPositionOffsetX => Group.Local
    case LocalPositionOffsetY => Group.Local
    case LocalPositionOffsetZ => Group.Local
    case LocalPositionWaypointX => Group.Local
    case LocalPositionWaypointY => Group.Local
    case LocalPositionWaypointZ => Group.Local
    case GlobalPositionOffsetLat => Group.Global
    case GlobalPositionOffsetLon => Group.Global
    case GlobalPositionOffsetAltAmsl => Group.Global
    case GlobalPositionWaypointLat => Group.Global
    case GlobalPositionWaypointLon => Group.Global
    case GlobalPositionWaypointAltAmsl => Group.Global
    case CameraOffsetX => Group.Camera
    case CameraOffsetY => Group.Camera
    case CameraYaw => Group.Camera
    case SafeLandingEnabled => Group.Safe
    case SafeLandingAreaSquareSize => Group.Safe
    case SafeLandingDistanceToGround => Group.Safe
    case SafeLandingOnNoSafeLand => Group.Safe
    case SafeLandingTryLandingAfterAction => Group.Safe
    case LandingSiteSearchSpeed => Group.Landing
    case LandingSiteSearchMaxDistance => Group.Landing
    case LandingSiteSearchMinHeight => Group.Landing
    case LandingSiteSearchMinDistanceAfterAbort => Group.Landing
    case LandingSiteSearchArrivalRadius => Group.Landing
    case LandingSiteSearchAssessTime => Group.Landing
    case LandingSiteSearchStrategy => Group.Landing
    case LandingSiteSearchSpiralSpacing => Group.Landing
    case LandingSiteSearchSpiralPoints => Group.Landing
    case SimpleCollisionAvoidEnabled => Group.Simple
    case SimpleCollisionAvoidDistanceThreshold => Group.Simple
    case SimpleCollisionAvoidActionOnConditionTrue => Group.Simple
  }

  function Prefix(g: Group): string {
    match g
    case Autopilot => "autopilot_"
    case Decision => "decision_"
    case Script => "script_"
    case Api => "api_"
    case Local => "local_position_"
    case Global => "global_position_"
    case Camera => "camera_"
    case Safe => "safe_landing_"
    case Landing => "landing_site_search_"
    case Simple => "simple_collision_avoid_"
  }

  function Rest(k: Key): string {
    match k
    case AutopilotManagerEnabled => "manager_enabled"
    case DecisionMakerInputType => "maker_input_type"
    case ScriptToCall => "to_call"
    case ApiCall => "call"
    case LocalPositionOffsetX => "offset_x"
    case LocalPositionOffsetY => "offset_y"
    case LocalPositionOffsetZ => "offset_z"
    case LocalPositionWaypointX => "waypoint_x"
    case LocalPositionWaypointY => "waypoint_y"
    case LocalPositionWaypointZ => "waypoint_z"
    case GlobalPositionOffsetLat => "offset_lat"
    case GlobalPositionOffsetLon => "offset_lon"
    case GlobalPositionOffsetAltAmsl => "offset_alt_amsl"
    case GlobalPositionWaypointLat => "waypoint_lat"
    case GlobalPositionWaypointLon => "waypoint_lon"
    case GlobalPositionWaypointAltAmsl => "waypoint_alt_amsl"
    case CameraOffsetX => "offset_x"
    case CameraOffsetY => "offset_y"
    case CameraYaw => "yaw"
    case SafeLandingEnabled => "enabled"
    case SafeLandingAreaSquareSize => "area_square_size"
    case SafeLandingDistanceToGround => "distance_to_ground"
    case SafeLandingOnNoSafeLand => "on_no_safe_land"
    case SafeLandingTryLandingAfterAction => "try_landing_after_action"
    case LandingSiteSearchSpeed => "speed"
    case LandingSiteSearchMaxDistance => "max_distance"
    case LandingSiteSearchMinHeight => "min_height"
    case LandingSiteSearchMinDistanceAfterAbort => "min_distance_after_abort"
    case LandingSiteSearchArrivalRadius => "arrival_radius"
    case LandingSiteSearchAssessTime => "assess_time"
    case LandingSiteSearchStrategy => "strategy"
    case LandingSiteSearchSpiralSpacing => "spiral_spacing"
    case LandingSiteSearchSpiralPoints => "spiral_points"
    case SimpleCollisionAvoidEnabled => "enabled"
    case SimpleCollisionAvoidDistanceThreshold => "distance_threshold"
    case SimpleCollisionAvoidActionOnConditionTrue => "action_on_condition_true"
  }

  function Name(k: Key): string {
    Prefix(GroupOf(k)) + Rest(k)
  }

  function KindOf(k: Key): Kind {
    match k
    case AutopilotManagerEnabled => Flag
    case SafeLandingEnabled => Flag
    case SafeLandingTryLandingAfterAction => Flag
    case SimpleCollisionAvoidEnabled => Flag
    case LandingSiteSearchSpiralPoints => Integer
    case DecisionMakerInputType => Text
    case ScriptToCall => Text
    case ApiCall => Text
    case SafeLandingOnNoSafeLand => Text
    case LandingSiteSearchStrategy => Text
    case SimpleCollisionAvoidActionOnConditionTrue => Text
    case _ => Double
  }

  /** Position of the key's line in the file. */
  function Index(k: Key): nat {
    match k
    case AutopilotManagerEnabled => 0
    case DecisionMakerInputType => 1
    case ScriptToCall => 2
    case ApiCall => 3
    case LocalPositionOffsetX => 4
    case LocalPositionOffsetY => 5
    case LocalPositionOffsetZ => 6
    case LocalPositionWaypointX => 7
    case LocalPositionWaypointY => 8
    case LocalPositionWaypointZ => 9
    case GlobalPositionOffsetLat => 10
    case GlobalPositionOffsetLon => 11
    case GlobalPositionOffsetAltAmsl => 12
    case GlobalPositionWaypointLat => 13
    case GlobalPositionWaypointLon => 14
    case GlobalPositionWaypointAltAmsl => 15
    case CameraOffsetX => 16
    case CameraOffsetY => 17
    case CameraYaw => 18
    case SafeLandingEnabled => 19
    case SafeLandingAreaSquareSize => 20
    case SafeLandingDistanceToGround => 21
    case SafeLandingOnNoSafeLand => 22
    case SafeLandingTryLandingAfterAction => 23
    case LandingSiteSearchSpeed => 24
    case LandingSiteSearchMaxDistance => 25
    case LandingSiteSearchMinHeight => 26
    case LandingSiteSearchMinDistanceAfterAbort => 27
    case LandingSiteSearchArrivalRadius => 28
    case LandingSiteSearchAssessTime => 29
    case LandingSiteSearchStrategy => 30
    case LandingSiteSearchSpiralSpacing => 31
    case LandingSiteSearchSpiralPoints => 32
    case SimpleCollisionAvoidEnabled => 33
    case SimpleCollisionAvoidDistanceThreshold => 34
    case SimpleCollisionAvoidActionOnConditionTrue => 35
  }

  function Keys(): seq<Key> {
    [
      AutopilotManagerEnabled, DecisionMakerInputType, ScriptToCall,
      ApiCall, LocalPositionOffsetX, LocalPositionOffsetY,
      LocalPositionOffsetZ, LocalPositionWaypointX, LocalPositionWaypointY,
      LocalPositionWaypointZ, GlobalPositionOffsetLat, GlobalPositionOffsetLon,
      GlobalPositionOffsetAltAmsl, GlobalPositionWaypointLat, GlobalPositionWaypointLon,
      GlobalPositionWaypointAltAmsl, CameraOffsetX, CameraOffsetY,
      CameraYaw, SafeLandingEnabled, SafeLandingAreaSquareSize,
      SafeLandingDistanceToGround, SafeLandingOnNoSafeLand, SafeLandingTryLandingAfterAction,
      LandingSiteSearchSpeed, LandingSiteSearchMaxDistance, LandingSiteSearchMinHeight,
      LandingSiteSearchMinDistanceAfterAbort, LandingSiteSearchArrivalRadius, LandingSiteSearchAssessTime,
      LandingSiteSearchStrategy, LandingSiteSearchSpiralSpacing, LandingSiteSearchSpiralPoints,
      SimpleCollisionAvoidEnabled, SimpleCollisionAvoidDistanceThreshold, SimpleCollisionAvoidActionOnConditionTrue
    ]
  }
}
