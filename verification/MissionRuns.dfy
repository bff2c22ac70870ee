/** What a whole run of the mission manager tells about its state. */
module MissionRuns {
  import opened MissionSafety
  import opened MissionSteps
  import opened MissionTypes
  import opened Options

  /** The mode the last of these events announced, if any did. */
  function LastMode(mode: FlightMode, events: seq<Event>): FlightMode
    decreases |events|
  {
    if events == [] then mode
    else if events[|events| - 1].FlightModeChange? then events[|events| - 1].mode
    else LastMode(mode, events[..|events| - 1])
  }

  function LastLanded(landed: LandedState, events: seq<Event>): LandedState
    decreases |events|
  {
    if events == [] then landed
    else if events[|events| - 1].LandedStateChange? then events[|events| - 1].landed
    else LastLanded(landed, events[..|events| - 1])
  }

  /** The manager knows what it was told last, and nothing but a tick makes it act. */
  predicate Told(events: seq<Event>, s: State) {
    && s.flightMode == LastMode(UnknownMode, events)
    && s.landedState == LastLanded(UnknownLanded, events)
    && (s.originSet <==> OriginReceived in events)
    && ((forall e :: e in events ==> !e.Tick?) ==>
          && s.phase == Idle && !s.actionInProgress && !s.avoidanceEnabled
          && s.localOverride == None && s.globalTarget == None && s.smoothed == None && s.healthy)
  }

  /** What only messages change. */
  predicate SameMessages(s: State, s': State) {
    && s'.flightMode == s.flightMode
    && s'.landedState == s.landedState
    && s'.previousLandedState == s.previousLandedState
    && s'.originSet == s.originSet
    && s'.timeLastTraj == s.timeLastTraj
    && s'.smoothed == s.smoothed
    && s'.config == s.config
  }

  lemma WorkFrame(s: State, t: TickInput)
    ensures SameMessages(s, ProcessActive(s, t).0)
    ensures ProcessActive(s, t).0.avoidanceEnabled == s.avoidanceEnabled
    ensures ProcessActive(s, t).0.healthy == s.healthy
  {
    SearchFrame(s, t);
    hide UpdateSearch, MustEndSearch, Arrived;
  }

  lemma SearchFrame(s: State, t: TickInput)
    ensures SameMessages(s, UpdateSearch(s, t).0)
    ensures UpdateSearch(s, t).0.avoidanceEnabled == s.avoidanceEnabled
    ensures UpdateSearch(s, t).0.healthy == s.healthy
  {
  }

  lemma InterveneFrame(s: State, t: TickInput)
    ensures SameMessages(s, Intervene(s, t).0)
    ensures Intervene(s, t).0.avoidanceEnabled == s.avoidanceEnabled
    ensures Intervene(s, t).0.healthy == s.healthy
  {
  }

  lemma SafeLandingFrame(s: State, t: TickInput)
    ensures var s' := HandleSafeLanding(s, t).0;
            && SameMessages(s, s')
            && s'.avoidanceEnabled == (t.rosNow - s.timeLastTraj < 0.5)
            && s'.healthy == s.healthy
  {
    var s1 := UpdateAvoidance(s, t.rosNow);
    InterveneFrame(s1, t);
    WorkFrame(if Intervenes(s1, t) then Intervene(s1, t).0 else s1, t);
    hide Intervene, ProcessActive, Intervenes;
  }

  lemma TickFrame(s: State, t: TickInput)
    ensures SameMessages(s.(config := t.config), TickStep(s, t).0)
  {
    SafeLandingFrame(s.(config := t.config), t);
    hide HandleSafeLanding;
  }

  lemma StepIsTold(events: seq<Event>, s: State, e: Event)
    requires Invariant(s) && Told(events, s)
    ensures Told(events + [e], Next(s, e))
  {
    var longer := events + [e];
    assert longer[..|longer| - 1] == events && longer[|longer| - 1] == e;
    assert e in longer && forall x :: x in events ==> x in longer;
    if e.Tick? {
      TickFrame(s, e.input);
      hide TickStep;
    }
  }

  /** After every run the flight mode and the landed state are those of the last such messages, the global
      origin is known exactly if it was received, and without a tick nothing has been started. */
  lemma {:induction false} RunIsTold(now: int, rosNow: real, config: Config, events: seq<Event>)
    ensures Told(events, Run(Initial(now, rosNow, config), events))
    decreases |events|
  {
    hide Told, Next;
    var s0 := Initial(now, rosNow, config);
    if events == [] {
      NothingTold(s0, now, rosNow, config);
    } else {
      var before, e := events[..|events| - 1], events[|events| - 1];
      assert events == before + [e];
      RunIsTold(now, rosNow, config, before);
      RunKeepsInvariant(s0, before);
      RunAppend(s0, before, e);
      StepIsTold(before, Run(s0, before), e);
    }
  }

  lemma NothingTold(s: State, now: int, rosNow: real, config: Config)
    requires s == Initial(now, rosNow, config)
    ensures Told([], s)
  {
  }

  /** A landed-state message: the present state is the message's; the one before is remembered exactly on a
      change, and nothing else happens. */
  lemma LandedRule(s: State, landed: LandedState)
    ensures var s' := LandedStateStep(s, landed);
            && s'.landedState == landed
            && s'.previousLandedState == (if landed == s.landedState then s.previousLandedState else s.landedState)
            && s' == s.(landedState := s'.landedState, previousLandedState := s'.previousLandedState)
  {
  }

  /** A trajectory message: its time is recorded unless it is the manager's own; nothing but that and the
      smoothed velocity changes. */
  lemma TrajectoryRule(s: State, m: TrajectoryInput)
    ensures var s' := TrajectoryStep(s, m).0;
            && s'.timeLastTraj == (if m.fromAvoidance then s.timeLastTraj else m.time)
            && (s'.smoothed != s.smoothed ==> s.phase == Searching && !m.fromAvoidance)
            && s' == s.(timeLastTraj := s'.timeLastTraj, smoothed := s'.smoothed)
  {
  }

  /** The reported health after a tick that serves safe landing: trajectory messages are recent or the pilot
      flies. Other ticks leave it as it was. */
  lemma HealthRule(s: State, t: TickInput)
    ensures TickStep(s, t).0.healthy <==>
              if t.config.autopilotManagerEnabled && t.config.decisionMakerInputType.SafeLanding?
              then t.rosNow - s.timeLastTraj < 0.5
                   || s.flightMode in {Manual, Altctl, Posctl, Acro, Stabilized, Rattitude}
              else s.healthy
  {
    SafeLandingFrame(s.(config := t.config), t);
    hide HandleSafeLanding;
  }
}
