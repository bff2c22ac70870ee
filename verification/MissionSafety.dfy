/** What holds of the mission manager over every run, at any interleaving of whole callbacks. */
module MissionSafety {
  import opened Options
  import opened MissionTypes
  import opened MissionSteps

  /** The invariant: the waypoint override is set exactly while the planner is active, a pilot in
      manual control never has an active planner against them, and no search runs without the
      global origin. */
  predicate Invariant(s: State) {
    && (s.localOverride.Some? <==> Active(s.phase))
    && (UnderManualControl(s.flightMode) ==> !Active(s.phase))
    && (Active(s.phase) ==> s.originSet)
  }

  lemma TickKeepsInvariant(s: State, t: TickInput)
    requires Invariant(s)
    ensures Invariant(TickStep(s, t).0)
    ensures TickStep(s, t).0.originSet == s.originSet
  {
    var c := s.(config := t.config);
    if t.config.autopilotManagerEnabled && t.config.decisionMakerInputType.SafeLanding? {
      SafeLandingKeepsInvariant(c, t);
    }
  }

  lemma SafeLandingKeepsInvariant(s: State, t: TickInput)
    requires Invariant(s)
    ensures Invariant(HandleSafeLanding(s, t).0)
    ensures HandleSafeLanding(s, t).0.originSet == s.originSet
  {
    hide React, UpdateSearch;
    var s1 := UpdateAvoidance(s, t.rosNow);
    if t.config.safeLandingEnabled && s1.avoidanceEnabled {
      if Intervenes(s1, t) {
        ReactKeepsInvariant(s1, t);
        ProcessKeepsInvariant(Intervene(s1, t).0, t);
      } else {
        ProcessKeepsInvariant(s1, t);
      }
    }
  }

  lemma ReactKeepsInvariant(s: State, t: TickInput)
    requires Invariant(s)
    requires s.avoidanceEnabled && LandingTriggered(s.flightMode, s.landedState)
    ensures Invariant(React(s, t).0)
    ensures React(s, t).0.avoidanceEnabled && React(s, t).0.originSet == s.originSet
  {
  }

  lemma ProcessKeepsInvariant(s: State, t: TickInput)
    requires Invariant(s)
    ensures Invariant(ProcessActive(s, t).0)
    ensures ProcessActive(s, t).0.originSet == s.originSet
  {
  }

  /** Every step of every callback keeps the invariant, and the global origin is never forgotten. */
  lemma StepKeepsInvariant(s: State, e: Event)
    requires Invariant(s)
    ensures Invariant(Next(s, e))
    ensures s.originSet ==> Next(s, e).originSet
  {
    hide TickStep;
    if e.Tick? {
      TickKeepsInvariant(s, e.input);
    }
  }

  lemma {:induction false} RunKeepsInvariant(s: State, events: seq<Event>)
    requires Invariant(s)
    ensures Invariant(Run(s, events))
    ensures s.originSet ==> Run(s, events).originSet
    decreases events
  {
    hide Invariant, Next;
    if events != [] {
      StepKeepsInvariant(s, events[0]);
      RunKeepsInvariant(Next(s, events[0]), events[1..]);
    }
  }

  /** Pilot authority: after any run, in a manual flight mode every trajectory message that is not
      the manager's own comes back unchanged; and in any mode it does so exactly while no search is active. */
  lemma PilotAuthority(now: int, rosNow: real, config: Config, events: seq<Event>, m: TrajectoryInput)
    ensures var s := Run(Initial(now, rosNow, config), events);
            && (m.fromAvoidance ==> TrajectoryStep(s, m) == (s, None))
            && (!m.fromAvoidance && s.flightMode in {Manual, Altctl, Posctl, Acro, Stabilized, Rattitude} ==>
                  TrajectoryStep(s, m).1 == Some(m.message))
            && (!m.fromAvoidance && !Active(s.phase) ==> TrajectoryStep(s, m).1 == Some(m.message))
            && (!m.fromAvoidance && Active(s.phase) ==>
                  exists answer :: TrajectoryStep(s, m).1 == Some(answer) && Overridden(s, answer))
  {
    RunKeepsInvariant(Initial(now, rosNow, config), events);
    var s := Run(Initial(now, rosNow, config), events);
    var reply := TrajectoryStep(s, m).1;
    if !m.fromAvoidance && Active(s.phase) {
      assert Overridden(s, reply.value);
    }
  }

  /** The answer while a search is active: one point that holds the planner's heading, commands
      either a position with a vertical velocity or an altitude with a horizontal one. */
  predicate Overridden(s: State, answer: TrajectoryMessage) {
    && s.localOverride.Some?
    && answer.validPoints == 1
    && answer.posYaw == Some(s.localOverride.value.yaw)
    && (if s.phase.Landing? then
          && answer.posX == Some(s.localOverride.value.x)
          && answer.posY == Some(s.localOverride.value.y)
          && answer.posZ.None? && answer.velX.None? && answer.velY.None? && answer.velZ.Some?
        else
          && answer.posX.None? && answer.posY.None? && answer.velZ.None?
          && answer.posZ.Some? && answer.velX.Some? && answer.velY.Some?)
  }

  /** At the end of every safe-landing tick an active planner means that the feature is enabled,
      avoidance is live, the vehicle flies, and neither the pilot nor a return is in charge. */
  lemma ActiveAfterTick(s: State, t: TickInput)
    requires Invariant(s)
    requires t.config.autopilotManagerEnabled && t.config.decisionMakerInputType.SafeLanding?
    ensures var s' := TickStep(s, t).0;
            Active(s'.phase) ==>
              && t.config.safeLandingEnabled
              && t.rosNow - s.timeLastTraj < 0.5
              && s'.avoidanceEnabled
              && !MustEndSearch(s')
              && s'.lastTime == t.now
  {
    var c := UpdateAvoidance(s.(config := t.config), t.rosNow);
    if t.config.safeLandingEnabled && c.avoidanceEnabled {
      var s2 := if Intervenes(c, t) then Intervene(c, t).0 else c;
      assert s2.landedState == c.landedState && s2.flightMode == c.flightMode && s2.avoidanceEnabled;
      ProcessEndsSearch(s2, t);
    }
  }

  lemma ProcessEndsSearch(s: State, t: TickInput)
    ensures var s' := ProcessActive(s, t).0;
            && s'.landedState == s.landedState
            && s'.flightMode == s.flightMode
            && s'.avoidanceEnabled == s.avoidanceEnabled
            && s'.actionInProgress == s.actionInProgress
            && (Active(s'.phase) ==> Active(s.phase) && !MustEndSearch(s))
            && (if Active(s.phase) then s'.lastTime == t.now else s'.lastTime == s.lastTime)
  {
    hide UpdateSearch, Arrived, MustEndSearch;
    UpdateFrame(s, t);
  }

  lemma UpdateFrame(s: State, t: TickInput)
    ensures var s' := UpdateSearch(s, t).0;
            && s'.landedState == s.landedState
            && s'.flightMode == s.flightMode
            && s'.avoidanceEnabled == s.avoidanceEnabled
            && s'.actionInProgress == s.actionInProgress
  {
  }

  lemma EndedUpdateHolds(s: State, t: TickInput)
    requires Active(s.phase)
    ensures !Active(UpdateSearch(s, t).0.phase) ==> UpdateSearch(s, t).1 == [Hold]
  {
  }

  /** A search that ends inside a tick leaves the vehicle in hold, unless the vehicle is on the
      ground or a return is under way. */
  lemma EndedSearchHolds(s: State, t: TickInput)
    requires Invariant(s)
    requires Active(s.phase) && !Active(TickStep(s, t).0.phase)
    ensures Hold in TickStep(s, t).1
            || OnGroundOrTakingOff(s.landedState) || s.flightMode.ReturnToLaunchMode?
  {
    hide UpdateSearch, React;
    var c := UpdateAvoidance(s.(config := t.config), t.rosNow);
    assert t.config.autopilotManagerEnabled && t.config.decisionMakerInputType.SafeLanding?;
    if t.config.safeLandingEnabled && c.avoidanceEnabled {
      var s2, commands2 := c, [];
      if Intervenes(c, t) {
        ReactFrame(c, t);
        s2, commands2 := Intervene(c, t).0, Intervene(c, t).1;
      }
      if Active(s2.phase) {
        EndedUpdateHolds(s2, t);
      }
    }
  }

  lemma ReactFrame(s: State, t: TickInput)
    requires s.avoidanceEnabled && Active(s.phase)
    ensures var (s', commands) := React(s, t);
            && s'.landedState == s.landedState
            && s'.flightMode == s.flightMode
            && s'.avoidanceEnabled
            && (Active(s'.phase) || commands == [Hold])
  {
  }

  /** The reasons to take a landing over: it is triggered, no action is pending, safe landing and
      avoidance are live, and the ground is known to be bad, or unknown or unhealthy from above 1.5 m. */
  predicate MustIntervene(s: State, t: TickInput) {
    && t.config.safeLandingEnabled
    && t.rosNow - s.timeLastTraj < 0.5
    && !s.actionInProgress
    && (s.flightMode == LandMode || (s.flightMode == Mission && s.landedState == LandingNow))
    && (t.mapper.CAN_NOT_LAND?
        || ((t.mapper.UNKNOWN? || t.mapper.UNHEALTHY?) && t.height.Some? && t.height.value > 1.5))
  }

  /** What the reaction commands first; nothing if the reaction commands nothing itself. */
  predicate FirstCommand(t: TickInput, commands: seq<Command>) {
    if t.mapper.UNHEALTHY? then
      commands != [] && commands[0] == Hold
    else
      match t.config.safeLandingOnNoSafeLand
      case HOLD => commands != [] && commands[0] == Hold
      case GO_TO_WAYPOINT_XYZ => commands != [] && commands[0] == Hold
      case MOVE_LLA_WRT_CURRENT => commands != [] && commands[0] == Hold
      case SCRIPT_CALL => commands != [] && commands[0] == Hold
      case API_CALL => commands != [] && commands[0] == Hold
      case RTL => commands != [] && commands[0] == ReturnToLaunch
      case MOVE_XYZ_WRT_CURRENT => commands != [] && (commands[0] == Hold || commands[0] == GoTo(t.offsetTarget))
      case GO_TO_WAYPOINT =>
        commands != []
        && (commands[0] == Hold || commands[0] == ReturnToLaunch
            || commands[0] == GoTo(t.config.globalPositionWaypoint))
      case _ => true
  }

  /** A safe-landing tick starts an action exactly for these reasons; then the action is pending from this
      tick on, the timer is set and the configured reaction comes first. For no other reason, with no
      search active and no waypoint to arrive at, does it command anything. */
  lemma InterventionRule(s: State, t: TickInput)
    requires t.config.autopilotManagerEnabled && t.config.decisionMakerInputType.SafeLanding?
    ensures var (s', commands) := TickStep(s, t);
            && (MustIntervene(s, t) <==> Triggers(s, t))
            && (MustIntervene(s, t) <==> !s.actionInProgress && s'.actionInProgress)
            && (MustIntervene(s, t) ==> s'.lastTime == t.now && FirstCommand(t, commands))
            && (!MustIntervene(s, t) && !Active(s.phase) && s.globalTarget.None? ==> commands == [])
  {
    hide UpdateSearch, FirstCommand;
    var c := UpdateAvoidance(s.(config := t.config), t.rosNow);
    if MustIntervene(s, t) {
      var (s2, first) := Intervene(c, t);
      ProcessEndsSearch(s2, t);
      InterveneCommands(c, t, ProcessActive(s2, t).1);
      assert TickStep(s, t).1 == first + ProcessActive(s2, t).1;
      assert s2.actionInProgress && s2.lastTime == t.now;
      hide Intervene, ProcessActive, React;
    } else {
      ProcessEndsSearch(c, t);
    }
  }

  lemma InterveneCommands(s: State, t: TickInput, more: seq<Command>)
    requires MustHold(t) || MustReact(t)
    ensures FirstCommand(t, Intervene(s, t).1 + more)
  {
  }

  /** An active planner has an action in progress. */
  predicate ActiveIsBusy(s: State) {
    Active(s.phase) ==> s.actionInProgress
  }

  /** The tick serves another input type while a search is active whose last action is five seconds old:
      the pending action is released although the search goes on. */
  predicate Strands(s: State, e: Event) {
    && e.Tick?
    && e.input.config.autopilotManagerEnabled
    && !e.input.config.decisionMakerInputType.SafeLanding?
    && Active(s.phase)
    && e.input.now - s.lastTime >= RETRY_MILLISECONDS
  }

  /** Exactly such a tick leaves an active planner without an action in progress. */
  lemma BusyRule(s: State, e: Event)
    requires Invariant(s) && ActiveIsBusy(s)
    ensures ActiveIsBusy(Next(s, e)) <==> !Strands(s, e)
  {
    hide UpdateSearch, React;
    if e.Tick? && e.input.config.autopilotManagerEnabled {
      var t := e.input;
      var c := UpdateAvoidance(s.(config := t.config), t.rosNow);
      if t.config.decisionMakerInputType.SafeLanding? && t.config.safeLandingEnabled && c.avoidanceEnabled {
        ProcessEndsSearch(if Intervenes(c, t) then Intervene(c, t).0 else c, t);
      }
    }
  }

  predicate NeverStrands(s: State, events: seq<Event>)
    decreases events
  {
    events != [] ==> !Strands(s, events[0]) && NeverStrands(Next(s, events[0]), events[1..])
  }

  /** Over a run: an active planner has an action in progress at every moment exactly when no tick of the
      run strands a search. */
  lemma {:induction false} RunKeepsBusy(s: State, events: seq<Event>)
    requires Invariant(s) && ActiveIsBusy(s)
    ensures NeverStrands(s, events) <==> forall n :: 0 <= n <= |events| ==> ActiveIsBusy(Run(s, events[..n]))
    decreases events
  {
    hide Invariant, ActiveIsBusy, Next, Strands;
    if events == [] {
      assert forall n :: 0 <= n <= |events| ==> events[..n] == [];
    } else {
      var e, rest := events[0], events[1..];
      BusyRule(s, e);
      StepKeepsInvariant(s, e);
      PrefixShift(s, events);
      if !Strands(s, e) {
        RunKeepsBusy(Next(s, e), rest);
        if forall n :: 0 <= n <= |rest| ==> ActiveIsBusy(Run(Next(s, e), rest[..n])) {
          forall n | 0 <= n <= |events| ensures ActiveIsBusy(Run(s, events[..n])) {
            if n > 0 {
              assert ActiveIsBusy(Run(Next(s, e), rest[..n - 1]));
            }
          }
        }
        if forall n :: 0 <= n <= |events| ==> ActiveIsBusy(Run(s, events[..n])) {
          forall n | 0 <= n <= |rest| ensures ActiveIsBusy(Run(Next(s, e), rest[..n])) {
            assert ActiveIsBusy(Run(s, events[..n + 1]));
          }
        }
      } else {
        assert !ActiveIsBusy(Run(s, events[..1]));
      }
    }
  }

  lemma PrefixShift(s: State, events: seq<Event>)
    requires events != []
    ensures Run(s, events[..1]) == Next(s, events[0])
    ensures forall n :: 0 < n <= |events| ==> Run(s, events[..n]) == Run(Next(s, events[0]), events[1..][..n - 1])
    ensures events[..0] == [] && Run(s, events[..0]) == s
  {
    hide Next;
    forall n | 0 < n <= |events|
      ensures Run(s, events[..n]) == Run(Next(s, events[0]), events[1..][..n - 1])
    {
      assert events[..n][1..] == events[1..][..n - 1];
    }
    assert Run(Next(s, events[0]), []) == Next(s, events[0]);
    assert events[1..][..0] == [];
  }

  /** As long as no search has been stranded, a search is only ever started on an idle planner. */
  lemma SearchStartsOnIdlePlanner(now: int, rosNow: real, config: Config, events: seq<Event>, t: TickInput)
    requires NeverStrands(Initial(now, rosNow, config), events)
    ensures var s := Run(Initial(now, rosNow, config), events); StartsSearch(s, t) ==> !Active(s.phase)
  {
    hide NeverStrands, Run;
    RunKeepsBusy(Initial(now, rosNow, config), events);
    assert events[..|events|] == events;
    assert ActiveIsBusy(Run(Initial(now, rosNow, config), events[..|events|]));
  }

  /** And a stranded search is one that the next tick may start anew: with an active planner, some tick
      starts a search exactly when no action is in progress and a landing is triggered. */
  lemma RestartRule(s: State)
    requires Invariant(s) && Active(s.phase)
    ensures (exists t :: StartsSearch(s, t)) <==> !s.actionInProgress && LandingTriggered(s.flightMode, s.landedState)
  {
    if !s.actionInProgress && LandingTriggered(s.flightMode, s.landedState) {
      var config := s.config.(autopilotManagerEnabled := true, decisionMakerInputType := SafeLanding,
        safeLandingEnabled := true, safeLandingOnNoSafeLand := LANDING_SITE_SEARCH);
      var somewhere := GlobalPosition(0.0, 0.0, 0.0);
      var t := TickInput(config, 0, s.timeLastTraj, CAN_NOT_LAND, None, None, 0.0, somewhere, somewhere,
        PlannerAnswers(Searching, KeepSearching, false, false, 0.0, 0.0));
      assert StartsSearch(s, t);
    }
  }

  /** It happens: a search under way, five seconds of another input type, and
      the next safe-landing tick starts the search anew on a planner that is already active. */
  lemma InputSwitchRestartsSearch(config: Config, t0: TickInput, t1: TickInput, t2: TickInput, m: TrajectoryInput)
    requires !m.fromAvoidance && m.time == 0.0
    requires t0.config.autopilotManagerEnabled && t0.config.decisionMakerInputType.SafeLanding?
    requires t0.config.safeLandingEnabled && t0.config.safeLandingOnNoSafeLand.LANDING_SITE_SEARCH?
    requires t0.mapper.CAN_NOT_LAND? && t0.now == 0 && t0.rosNow == 0.0
    requires t0.planner.start.Searching? && t0.planner.update.KeepSearching?
    requires t1 == t0.(config := t0.config.(decisionMakerInputType := OtherInput), now := 5000)
    requires t2 == t0.(now := 5001)
    ensures var s := Run(Initial(0, 0.0, config),
                         [OriginReceived, Trajectory(m), FlightModeChange(LandMode), Tick(t0), Tick(t1)]);
            Active(s.phase) && StartsSearch(s, t2)
  {
    var events := [OriginReceived, Trajectory(m), FlightModeChange(LandMode), Tick(t0), Tick(t1)];
    var s0 := Initial(0, 0.0, config);
    var s1 := Next(s0, OriginReceived);
    var s2 := Next(s1, Trajectory(m));
    var s3 := Next(s2, FlightModeChange(LandMode));
    var s4 := Next(s3, Tick(t0));
    var s5 := Next(s4, Tick(t1));
    assert Active(s4.phase) && s4.actionInProgress && s4.lastTime == 0;
    RunFive(s0, events);
  }

  /** Some run leads from s to t. */
  ghost predicate Reaches(s: State, t: State) {
    exists events :: Run(s, events) == t
  }

  lemma ReachesSelf(s: State)
    ensures Reaches(s, s)
  {
    assert Run(s, []) == s;
  }

  lemma ReachesStep(s: State, t: State, e: Event)
    requires Reaches(s, t)
    ensures Reaches(s, Next(t, e))
  {
    hide Next;
    var events :| Run(s, events) == t;
    RunAppend(s, events, e);
  }

  lemma {:induction false} RunAppend(s: State, events: seq<Event>, e: Event)
    ensures Run(s, events + [e]) == Next(Run(s, events), e)
    decreases events
  {
    hide Next;
    if events == [] {
      assert ([] + [e])[1..] == [] && Run(Next(s, e), []) == Next(s, e);
    } else {
      assert (events + [e])[1..] == events[1..] + [e];
      RunAppend(Next(s, events[0]), events[1..], e);
    }
  }

  lemma RunFive(s: State, e: seq<Event>)
    requires |e| == 5
    ensures Run(s, e) == Next(Next(Next(Next(Next(s, e[0]), e[1]), e[2]), e[3]), e[4])
  {
    hide Next;
    var s3 := Next(Next(Next(s, e[0]), e[1]), e[2]);
    assert e[1..][1..] == e[2..] && e[2..][1..] == e[3..] && e[3..][1..] == e[4..] && e[4..][1..] == [];
    assert Run(s3, e[3..]) == Run(Next(s3, e[3]), e[4..]) == Next(Next(s3, e[3]), e[4]);
    assert Run(s, e) == Run(Next(s, e[0]), e[1..]) == Run(Next(Next(s, e[0]), e[1]), e[2..]);
  }
}
