/** How a tick moves a landing site search on, and what a vehicle under its control is told. */
module MissionLanding {
  import opened MissionReactions
  import opened MissionSafety
  import opened MissionSteps
  import opened MissionTypes
  import opened Options

  /** The ground allows a landing that is under way to go on. */
  predicate GroundAllows(mapper: MapperState) {
    mapper == CAN_LAND || mapper == TOO_HIGH || mapper == CLOSE_TO_GROUND
  }

  /** A safe-landing tick that serves an active search and finds no reason to end it. */
  predicate SearchGoesOn(s: State, t: TickInput) {
    && t.config.autopilotManagerEnabled && t.config.decisionMakerInputType.SafeLanding?
    && t.config.safeLandingEnabled && t.rosNow - s.timeLastTraj < 0.5
    && Active(s.phase)
    && s.landedState != OnGround && s.landedState != TakingOff
    && !UnderManualControl(s.flightMode) && s.flightMode != ReturnToLaunchMode
  }

  /** The phase a served search is in after the tick. */
  predicate PhaseAfter(s: State, t: TickInput, phase: Phase) {
    if s.phase == Landing then
      && (phase == Landing <==> GroundAllows(t.mapper))
      && (phase == Ended <==> !GroundAllows(t.mapper) && t.planner.abortEndsSearch)
      && (phase == Searching <==> !GroundAllows(t.mapper) && !t.planner.abortEndsSearch)
    else
      && (phase == Landing <==>
            t.planner.update == SiteFound && t.config.safeLandingTryLandingAfterAction)
      && (phase == Ended <==>
            t.planner.update == PatternExhausted
            || (t.planner.update == SiteFound && !t.config.safeLandingTryLandingAfterAction))
      && (phase == Searching <==> t.planner.update == KeepSearching)
  }

  /** The override waypoint a served search has after the tick: none once it has ended, the planner's new
      one if there is one and the search does not start to land with this tick, else the one it had. */
  predicate OverrideAfter(s: State, t: TickInput, phase: Phase, waypoint: Option<LocalWaypoint>) {
    if phase == Ended then
      waypoint == None
    else if t.planner.waypointUpdated && (s.phase == Landing || phase == Searching) then
      waypoint == Some(LocalWaypoint(t.planner.waypointNorth, t.planner.waypointEast, t.yaw))
    else
      waypoint == s.localOverride
  }

  /** A served search: when a landing is begun, goes on or is aborted, when the search ends, which waypoint
      it follows, and that a hold is commanded exactly when it ends and nothing otherwise. */
  lemma SearchUpdateRule(s: State, t: TickInput)
    requires Invariant(s) && ActiveIsBusy(s) && SearchGoesOn(s, t)
    ensures var (s', commands) := TickStep(s, t);
            && PhaseAfter(s, t, s'.phase)
            && OverrideAfter(s, t, s'.phase, s'.localOverride)
            && commands == (if s'.phase == Ended then [Hold] else [])
            && s'.globalTarget == s.globalTarget
  {
    var c := UpdateAvoidance(s.(config := t.config), t.rosNow);
    assert !Intervenes(c, t);
    assert ProcessActive(c, t).1 == UpdateSearch(c, t).1;
    UpdateRule(c, t);
    hide UpdateSearch;
    assert [] + UpdateSearch(c, t).1 == UpdateSearch(c, t).1;
    assert TickStep(s, t).1 == UpdateSearch(c, t).1;
  }

  lemma UpdateRule(s: State, t: TickInput)
    requires Active(s.phase)
    ensures var (s', commands) := UpdateSearch(s, t);
            && PhaseAfter(s, t, s'.phase)
            && OverrideAfter(s, t, s'.phase, s'.localOverride)
            && commands == (if s'.phase == Ended then [Hold] else [])
            && s'.globalTarget == s.globalTarget
  {
  }

  /** A safe-landing tick that ends a search for one of the other reasons: a hold exactly if neither the
      ground, the pilot nor a return has taken over. */
  lemma SearchEndRule(s: State, t: TickInput)
    requires Invariant(s) && ActiveIsBusy(s) && Active(s.phase) && !SearchGoesOn(s, t)
    requires t.config.autopilotManagerEnabled && t.config.decisionMakerInputType.SafeLanding?
    ensures var (s', commands) := TickStep(s, t);
            && s'.phase == Ended && s'.localOverride == None && s'.globalTarget == s.globalTarget
            && (if !t.config.safeLandingEnabled || t.rosNow - s.timeLastTraj >= 0.5 then commands == [Hold]
                else commands == [])
  {
    var c := UpdateAvoidance(s.(config := t.config), t.rosNow);
    hide UpdateSearch, React;
  }

  /** Work on an active search, in any state: the ground, the pilot and a return end it silently, lost
      avoidance ends it with a hold, and otherwise the planner is asked. */
  lemma ProcessRule(s: State, t: TickInput)
    requires Active(s.phase)
    ensures var (s', commands) := ProcessActive(s, t);
            && s'.lastTime == t.now
            && (if s.landedState in {OnGround, TakingOff} || s.flightMode == ReturnToLaunchMode
                   || s.flightMode in {Manual, Altctl, Posctl, Acro, Stabilized, Rattitude}
                then s'.phase == Ended && s'.localOverride == None && commands == []
                else if !s.avoidanceEnabled
                then s'.phase == Ended && s'.localOverride == None && commands == [Hold]
                else PhaseAfter(s, t, s'.phase) && OverrideAfter(s, t, s'.phase, s'.localOverride)
                     && commands == (if s'.phase == Ended then [Hold] else []))
  {
    UpdateRule(s, t);
    hide UpdateSearch;
  }

  /** The search a tick starts, before the update of the same tick. */
  function Started(s: State, t: TickInput): State {
    s.(phase := t.planner.start,
       localOverride := Some(LocalWaypoint(t.planner.waypointNorth, t.planner.waypointEast, t.yaw)))
  }

  /** A reaction by searching a landing site: without a global origin, or if the planner does not start,
      the first command is a hold and no search is active; otherwise the search starts at the planner's
      waypoint and is updated in the same tick, or ended if the vehicle is on the ground or taking off. */
  lemma SearchReaction(s: State, t: TickInput)
    requires Invariant(s) && ActiveIsBusy(s) && Reacts(s, t)
    requires t.config.safeLandingOnNoSafeLand == LANDING_SITE_SEARCH
    ensures var (s', commands) := TickStep(s, t);
            if !s.originSet || !Active(t.planner.start) then
              !Active(s'.phase) && s'.localOverride == None && commands != [] && commands[0] == Hold
            else if s.landedState == OnGround || s.landedState == TakingOff then
              s'.phase == Ended && s'.localOverride == None && commands == []
            else
              && PhaseAfter(Started(s, t), t, s'.phase)
              && OverrideAfter(Started(s, t), t, s'.phase, s'.localOverride)
              && commands == (if s'.phase == Ended then [Hold] else [])
  {
    var c := UpdateAvoidance(s.(config := t.config), t.rosNow);
    var (s2, first) := Intervene(c, t);
    assert TickStep(s, t).1 == first + ProcessActive(s2, t).1;
    if Active(s2.phase) {
      ProcessRule(s2, t);
      assert [] + ProcessActive(s2, t).1 == ProcessActive(s2, t).1;
    }
    hide UpdateSearch, Intervenes;
  }

  /** A tick starts a search exactly if it matters to it whether the planner starts. */
  lemma StartIsAsked(s: State, t: TickInput)
    requires Invariant(s) && ActiveIsBusy(s)
    ensures StartsSearch(s, t) <==>
              TickStep(s, t.(planner := t.planner.(start := Searching)))
              != TickStep(s, t.(planner := t.planner.(start := Idle)))
  {
    var t1, t0 := t.(planner := t.planner.(start := Searching)), t.(planner := t.planner.(start := Idle));
    if StartsSearch(s, t) {
      SearchReaction(s, t1);
      SearchReaction(s, t0);
      hide TickStep;
    } else {
      SameWithoutStart(s, t0, t1);
    }
  }

  lemma SameWithoutStart(s: State, t0: TickInput, t1: TickInput)
    requires !StartsSearch(s, t0) && t1 == t0.(planner := t0.planner.(start := t1.planner.start))
    ensures TickStep(s, t0) == TickStep(s, t1)
  {
    var c := UpdateAvoidance(s.(config := t0.config), t0.rosNow);
    if Intervenes(c, t0) && c.avoidanceEnabled && t0.config.safeLandingEnabled
       && t0.config.autopilotManagerEnabled && t0.config.decisionMakerInputType.SafeLanding? {
      SameReaction(c, t0, t1);
      SameWork(Intervene(c, t0).0, t0, t1);
    }
    SameWork(c, t0, t1);
    assert Intervenes(c, t0) == Intervenes(c, t1);
    hide ProcessActive, Intervene, Intervenes, ReleaseAction;
  }

  lemma SameReaction(s: State, t0: TickInput, t1: TickInput)
    requires t1 == t0.(planner := t0.planner.(start := t1.planner.start))
    requires MustHold(t0) || !t0.config.safeLandingOnNoSafeLand.LANDING_SITE_SEARCH? || !s.originSet
    ensures Intervene(s, t0) == Intervene(s, t1)
  {
  }

  lemma SameWork(s: State, t0: TickInput, t1: TickInput)
    requires t1 == t0.(planner := t0.planner.(start := t1.planner.start))
    ensures ProcessActive(s, t0) == ProcessActive(s, t1)
  {
  }

  /** What the vehicle is told to do while it lands at a site: go down over the waypoint, at the crawl
      speed exactly when it is known to be below the crawl altitude. */
  lemma LandingAnswer(s: State, m: TrajectoryInput)
    requires Invariant(s) && s.phase == Landing && !m.fromAvoidance
    ensures s.localOverride.Some?
    ensures TrajectoryStep(s, m).1.Some?
    ensures var w, answer := s.localOverride.value, TrajectoryStep(s, m).1.value;
            && answer.validPoints == 1
            && answer.posX == Some(w.x) && answer.posY == Some(w.y) && answer.posYaw == Some(w.yaw)
            && answer.posZ == None && answer.velX == None && answer.velY == None
            && answer.velZ.Some?
            && (m.height.Some? && m.height.value < m.crawlAltitude ==> answer.velZ.value == m.crawlSpeed)
            && (m.height.None? || m.height.value >= m.crawlAltitude ==> answer.velZ.value == m.landingSpeed)
            && answer.rest == m.message.rest
  {
  }

  /** What the vehicle is told to do while it searches: hold the search altitude, which is positive upward
      while z points down, keep the waypoint's heading and move horizontally. */
  lemma SearchAnswer(s: State, m: TrajectoryInput)
    requires Invariant(s) && s.phase == Searching && !m.fromAvoidance
    ensures s.localOverride.Some?
    ensures TrajectoryStep(s, m).1.Some?
    ensures var w, answer := s.localOverride.value, TrajectoryStep(s, m).1.value;
            && answer.validPoints == 1
            && answer.posX == None && answer.posY == None && answer.posYaw == Some(w.yaw)
            && answer.posZ.Some? && answer.posZ.value + m.searchAltitude == 0.0
            && answer.velX.Some? && answer.velY.Some? && answer.velZ == None
            && answer.rest == m.message.rest
  {
  }
}
