/** The mission manager as the object it is. Each callback updates the fields in place and is proved
    against its step function; together they keep the invariant of module MissionSafety. */
module MissionManager {
  import opened Options
  import opened MissionTypes
  import opened MissionSteps
  import opened MissionSafety

  class MissionManager {
    var config: Config
    var actionInProgress: bool
    var lastTime: int
    var flightMode: FlightMode
    var landedState: LandedState
    var previousLandedState: LandedState
    var originSet: bool
    var avoidanceEnabled: bool
    var timeLastTraj: real
    var phase: Phase
    var localOverride: Option<LocalWaypoint>
    var globalTarget: Option<GlobalPosition>
    var smoothed: Option<Velocity>
    var healthy: bool

    function Contents(): State
      reads this
    {
      State(config, actionInProgress, lastTime, flightMode, landedState, previousLandedState, originSet,
            avoidanceEnabled, timeLastTraj, phase, localOverride, globalTarget, smoothed, healthy)
    }

    constructor (now: int, rosNow: real, config: Config)
      ensures Contents() == Initial(now, rosNow, config)
      ensures Invariant(Contents()) && ActiveIsBusy(Contents())
    {
      this.config := config;
      actionInProgress, lastTime := false, now;
      flightMode, landedState, previousLandedState := UnknownMode, UnknownLanded, UnknownLanded;
      originSet, avoidanceEnabled, timeLastTraj := false, false, rosNow;
      phase, localOverride, globalTarget := Idle, None, None;
      smoothed, healthy := None, true;
    }

    /** Unset the waypoint override; the planner has already ended its search. */
    method LandingSiteSearchHasEnded()
      modifies this
      ensures Contents() == old(Contents()).(localOverride := None)
    {
      localOverride := None;
    }

    method UpdateObstacleAvoidanceStatus(rosNow: real)
      modifies this
      ensures Contents() == UpdateAvoidance(old(Contents()), rosNow)
    {
      var receivedRecently := rosNow - timeLastTraj < 0.5;
      if avoidanceEnabled == receivedRecently {
        return;
      }
      avoidanceEnabled := receivedRecently;
    }

    method FlightModeCallback(mode: FlightMode)
      requires Invariant(Contents())
      modifies this
      ensures Contents() == FlightModeStep(old(Contents()), mode)
      ensures Invariant(Contents())
      ensures UnderManualControl(mode) ==> !Active(phase)
    {
      StepKeepsInvariant(Contents(), FlightModeChange(mode));
      if mode != flightMode {
        flightMode := mode;
        var takingOff := landedState.OnGround? || landedState.TakingOff?;
        var expectingTakeoff := mode.Mission? || mode.Takeoff?;
        if !(takingOff && expectingTakeoff) && !UnderManualControl(mode) {
          return;
        }
        if Active(phase) {
          phase := Ended;
          LandingSiteSearchHasEnded();
        }
        phase := Idle;
      }
    }

    method LandedStateCallback(landed: LandedState)
      requires Invariant(Contents())
      modifies this
      ensures Contents() == LandedStateStep(old(Contents()), landed)
      ensures Invariant(Contents())
    {
      if landed != landedState {
        previousLandedState := landedState;
        landedState := landed;
      }
    }

    method OnTrajectoryMessage(m: TrajectoryInput) returns (answer: Option<TrajectoryMessage>)
      requires Invariant(Contents())
      modifies this
      ensures (Contents(), answer) == TrajectoryStep(old(Contents()), m)
      ensures Invariant(Contents())
      ensures !m.fromAvoidance && !Active(phase) ==> answer == Some(m.message)
    {
      if m.fromAvoidance {
        return None;
      }
      timeLastTraj := m.time;
      if Active(phase) && localOverride.Some? {
        var w := localOverride.value;
        if phase.Landing? {
          var landVelocity := m.landingSpeed;
          if m.height.Some? && m.height.value < m.crawlAltitude {
            landVelocity := m.crawlSpeed;
          }
          answer := Some(m.message.(
            validPoints := 1, posX := Some(w.x), posY := Some(w.y), posZ := None, posYaw := Some(w.yaw),
            velX := None, velY := None, velZ := Some(landVelocity)));
        } else {
          var raw := RawVelocity(w, m, config.landingSiteSearchSpeed);
          var v := if smoothed.Some? then smoothed.value else raw;
          v := Velocity(v.x * 0.9 + raw.x * 0.1, v.y * 0.9 + raw.y * 0.1);
          smoothed := Some(v);
          answer := Some(m.message.(
            validPoints := 1, posX := None, posY := None, posZ := Some(-m.searchAltitude), posYaw := Some(w.yaw),
            velX := Some(-v.x), velY := Some(-v.y), velZ := None));
        }
      } else {
        answer := Some(m.message);
      }
    }

    /** One planner update, and the commands it gives rise to. */
    method UpdateLandingSiteSearch(t: TickInput) returns (commands: seq<Command>)
      requires Active(phase)
      modifies this
      ensures (Contents(), commands) == UpdateSearch(old(Contents()), t)
    {
      commands := [];
      var shouldInitiateLanding := false;
      if phase.Landing? {
        if t.mapper.UNHEALTHY? || t.mapper.UNKNOWN? || t.mapper.CAN_NOT_LAND? {
          phase := if t.planner.abortEndsSearch then Ended else Searching;
        }
      } else {
        match t.planner.update {
          case KeepSearching => phase := Searching;
          case SiteFound => phase := Landing;
          case PatternExhausted => phase := Ended;
        }
        shouldInitiateLanding := phase.Landing?;
      }
      if shouldInitiateLanding {
        if !t.config.safeLandingTryLandingAfterAction {
          commands := [Hold];
          phase := Ended;
        }
      } else if phase.Ended? {
        commands := [Hold];
      } else if t.planner.waypointUpdated {
        localOverride := Some(PlannerWaypoint(t));
      } else {
        return;
      }
      if phase.Ended? {
        LandingSiteSearchHasEnded();
      }
    }

    method ProcessActiveAction(t: TickInput) returns (commands: seq<Command>)
      modifies this
      ensures (Contents(), commands) == ProcessActive(old(Contents()), t)
    {
      commands := [];
      if Active(phase) {
        var onGround := landedState.OnGround? || landedState.TakingOff?;
        var manualControl := UnderManualControl(flightMode);
        var rtlActive := flightMode.ReturnToLaunchMode?;
        if onGround || manualControl || rtlActive || !avoidanceEnabled {
          phase := Ended;
          if !onGround && !manualControl && !rtlActive {
            commands := [Hold];
          }
          LandingSiteSearchHasEnded();
        } else {
          commands := UpdateLandingSiteSearch(t);
        }
        lastTime := t.now;
      } else if phase.Ended? && landedState.TakingOff? {
        phase := Idle;
      } else if globalTarget.Some? {
        if Arrived(globalTarget.value, t.position) {
          if t.config.safeLandingTryLandingAfterAction {
            commands := [Land];
            globalTarget := None;
          }
        }
      }
    }

    /** The configured reaction to a place where the vehicle cannot land. */
    method TriggerReaction(t: TickInput) returns (commands: seq<Command>)
      modifies this
      ensures (Contents(), commands) == React(old(Contents()), t)
    {
      commands := [];
      match t.config.safeLandingOnNoSafeLand
      case RTL => commands := [ReturnToLaunch];
      case MOVE_XYZ_WRT_CURRENT =>
        if originSet {
          commands := [GoTo(t.offsetTarget)];
          globalTarget := Some(t.offsetTarget);
        } else {
          commands := [Hold];
        }
      case LANDING_SITE_SEARCH =>
        if originSet && avoidanceEnabled {
          phase := t.planner.start;
          if Active(phase) {
            localOverride := Some(PlannerWaypoint(t));
          } else {
            commands := [Hold];
            LandingSiteSearchHasEnded();
          }
        } else {
          commands := [Hold];
          LandingSiteSearchHasEnded();
        }
      case GO_TO_WAYPOINT =>
        var w := t.config.globalPositionWaypoint;
        if Near(w.latitude, t.position.latitude, 0.00001) && Near(w.longitude, t.position.longitude, 0.00001)
           && Near(0.0, t.position.altitude, 1.0) {
          commands := [ReturnToLaunch];
        } else if originSet {
          commands := [GoTo(w)];
          globalTarget := Some(w);
        } else {
          commands := [Hold];
        }
      case LAND =>
      case UNRECOGNISED =>
      case _ => commands := [Hold];
    }

    method HandleSafeLanding(t: TickInput) returns (commands: seq<Command>)
      modifies this
      ensures (Contents(), commands) == MissionSteps.HandleSafeLanding(old(Contents()), t)
    {
      hide React, ProcessActive;
      commands := [];
      UpdateObstacleAvoidanceStatus(t.rosNow);
      if !t.config.safeLandingEnabled || !avoidanceEnabled {
        if Active(phase) {
          phase := Ended;
          commands := [Hold];
          LandingSiteSearchHasEnded();
        }
        return;
      }
      if !actionInProgress && LandingTriggered(flightMode, landedState) {
        if MustHold(t) {
          commands := [Hold];
          actionInProgress := true;
          lastTime := t.now;
        } else if MustReact(t) {
          commands := TriggerReaction(t);
          actionInProgress := true;
          lastTime := t.now;
        }
      }
      var more := ProcessActiveAction(t);
      commands := commands + more;
    }

    method HandleSimpleCollisionAvoidance(t: TickInput) returns (commands: seq<Command>)
      modifies this
      ensures (Contents(), commands) == HandleCollisionAvoidance(old(Contents()), t)
    {
      commands := [];
      if t.config.simpleCollisionAvoidEnabled {
        if t.distance.Some? && t.distance.value <= t.config.simpleCollisionAvoidDistanceThreshold
           && landedState.InAir? && !actionInProgress {
          commands := CollisionCommands(t.config.simpleCollisionAvoidAction);
          actionInProgress := true;
          lastTime := t.now;
        }
      }
    }

    /** One iteration of the decision loop. */
    method DecisionMakerIteration(t: TickInput) returns (commands: seq<Command>)
      requires Invariant(Contents())
      modifies this
      ensures (Contents(), commands) == TickStep(old(Contents()), t)
      ensures Invariant(Contents())
    {
      hide MissionSteps.HandleSafeLanding, HandleCollisionAvoidance, Invariant;
      TickKeepsInvariant(Contents(), t);
      commands := [];
      config := t.config;
      if config.autopilotManagerEnabled {
        match config.decisionMakerInputType {
          case SafeLanding =>
            commands := HandleSafeLanding(t);
            healthy := avoidanceEnabled || UnderManualControl(flightMode);
          case SimpleCollisionAvoidance =>
            commands := HandleSimpleCollisionAvoidance(t);
          case OtherInput =>
        }
        if actionInProgress && t.now - lastTime >= RETRY_MILLISECONDS {
          actionInProgress := false;
        }
      }
    }
  }
}
