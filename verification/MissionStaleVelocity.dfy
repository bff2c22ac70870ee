/** A later search starts with the velocity the last one left: a run in which the vehicle is first sent
    away from its waypoint. */
module MissionStaleVelocity {
  import opened MissionSafety
  import opened MissionSteps
  import opened MissionTypes
  import opened MissionVelocity
  import opened Options

  const ORIGIN: GlobalPosition := GlobalPosition(0.0, 0.0, 0.0)

  function Searches(): Config {
    Config(true, SafeLanding, true, LANDING_SITE_SEARCH, true, 1.0, ORIGIN, false, 0.0, HOLD)
  }

  /** A tick at the given time that would start a search with its first waypoint at the local origin. */
  function SearchTick(now: int): TickInput {
    TickInput(Searches(), now, 0.0, CAN_NOT_LAND, None, None, 0.0, ORIGIN, ORIGIN,
              PlannerAnswers(Searching, KeepSearching, false, false, 0.0, 0.0))
  }

  /** A trajectory message while the vehicle is at (x, 0). */
  function MessageAt(x: real, distance: real): TrajectoryInput {
    TrajectoryInput(false, 0.0, TrajectoryMessage(1, None, None, None, None, None, None, None, []),
                    x, 0.0, distance, None, 0.0, 0.0, 0.0, 0.0)
  }

  /** The first search is under way and steers a vehicle that is south of the waypoint. */
  function FirstSearch(): State {
    Initial(0, 0.0, Searches()).(
      originSet := true, flightMode := LandMode, avoidanceEnabled := true, phase := Searching,
      localOverride := Some(LocalWaypoint(0.0, 0.0, 0.0)), actionInProgress := true,
      smoothed := Some(Velocity(-1.0, 0.0)))
  }

  /** A tick that finds the planner idle and a landing triggered starts a search. */
  lemma StartSearch(s: State, now: int)
    requires s.config == Searches() && s.originSet && s.timeLastTraj == 0.0 && s.healthy
    requires !s.actionInProgress && s.flightMode == LandMode && s.landedState.UnknownLanded?
    ensures Next(s, Tick(SearchTick(now)))
         == s.(avoidanceEnabled := true, phase := Searching, localOverride := Some(LocalWaypoint(0.0, 0.0, 0.0)),
               actionInProgress := true, lastTime := now)
  {
  }

  lemma SteerFirst(s: State)
    requires s == FirstSearch().(smoothed := None)
    ensures Next(s, Trajectory(MessageAt(-1.0, 1.0))) == FirstSearch()
  {
    var raw := Velocity(-1.0, 0.0);
    assert RawVelocity(s.localOverride.value, MessageAt(-1.0, 1.0), 1.0) == raw;
    assert Smooth(None, raw) == raw;
    hide RawVelocity, Smooth;
  }

  lemma ReachesFirstSearch()
    ensures Reaches(Initial(0, 0.0, Searches()), FirstSearch())
  {
    hide Run, Reaches, TickStep, TrajectoryStep;
    var s0 := Initial(0, 0.0, Searches());
    ReachesSelf(s0);
    ReachesStep(s0, s0, OriginReceived);
    var s1 := s0.(originSet := true);
    ReachesStep(s0, s1, FlightModeChange(LandMode));
    var s2 := s1.(flightMode := LandMode);
    ReachesStep(s0, s2, Tick(SearchTick(0)));
    var s3 := FirstSearch().(smoothed := None);
    StartSearch(s2, 0);
    ReachesStep(s0, s3, Trajectory(MessageAt(-1.0, 1.0)));
    SteerFirst(s3);
  }

  /** The pilot takes over and hands back, and a second search starts. */
  function SecondSearch(): State {
    FirstSearch().(lastTime := 5001)
  }

  lemma ReachesSecondSearch()
    ensures Reaches(Initial(0, 0.0, Searches()), SecondSearch())
  {
    hide Run, Reaches;
    var s0, s1 := Initial(0, 0.0, Searches()), FirstSearch();
    ReachesFirstSearch();
    ReachesStep(s0, s1, FlightModeChange(Manual));
    var s2 := s1.(flightMode := Manual, phase := Idle, localOverride := None);
    assert Next(s1, FlightModeChange(Manual)) == s2;
    ReachesStep(s0, s2, FlightModeChange(LandMode));
    var s3 := s2.(flightMode := LandMode);
    ReachesStep(s0, s3, Tick(SearchTick(5000)));
    var s4 := s3.(actionInProgress := false);
    assert Next(s3, Tick(SearchTick(5000))) == s4;
    ReachesStep(s0, s4, Tick(SearchTick(5001)));
    StartSearch(s4, 5001);
  }

  /** The first answer of the second search sends a vehicle north of the waypoint further north, at 0.8
      of the search speed. */
  lemma LaterSearchMovesAway()
    ensures exists s :: Reaches(Initial(0, 0.0, Searches()), s) && MovesAway(s, MessageAt(1.0, 1.0))
  {
    ReachesSecondSearch();
    var s, m := SecondSearch(), MessageAt(1.0, 1.0);
    assert Smooth(s.smoothed, Velocity(1.0, 0.0)) == Velocity(-0.8, 0.0);
    assert MovesAway(s, m);
  }

  predicate MovesAway(s: State, m: TrajectoryInput) {
    && Steers(s, m) && Measured(s, m)
    && s.config.landingSiteSearchSpeed == 1.0
    && s.localOverride.value.x == 0.0 && m.posX == 1.0
    && TrajectoryStep(s, m).1.Some?
    && TrajectoryStep(s, m).1.value.velX == Some(0.8)
    && !HeadsForWaypoint(s, m)
  }
}
