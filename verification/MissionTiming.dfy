/** How far apart in time the mission manager triggers its actions. */
module MissionTiming {
  import opened MissionTypes
  import opened Options
  import opened MissionSteps
  import opened MissionSafety

  /** The times at which a run triggers an action, from either handler. */
  function TriggerTimes(s: State, events: seq<Event>): seq<int>
    decreases events
  {
    if events == [] then []
    else
      (if events[0].Tick? && Triggers(s, events[0].input) then [events[0].input.now] else [])
      + TriggerTimes(Next(s, events[0]), events[1..])
  }

  /** The clock never runs backward over the ticks. */
  ghost predicate ClockFrom(start: int, events: seq<Event>)
    decreases events
  {
    events != [] ==>
      if events[0].Tick? then
        start <= events[0].input.now && ClockFrom(events[0].input.now, events[1..])
      else
        ClockFrom(start, events[1..])
  }

  /** The effect of one event on the retry timer. */
  lemma TimerStep(s: State, e: Event, clock: int)
    requires s.lastTime <= clock
    requires e.Tick? ==> clock <= e.input.now
    ensures var s' := Next(s, e);
            && (!e.Tick? ==> s'.lastTime == s.lastTime && s'.actionInProgress == s.actionInProgress)
            && (e.Tick? ==>
                  && s.lastTime <= s'.lastTime <= e.input.now
                  && (s.actionInProgress && !s'.actionInProgress ==> e.input.now >= s.lastTime + RETRY_MILLISECONDS)
                  && (s.actionInProgress ==> !Triggers(s, e.input))
                  && (Triggers(s, e.input) ==> s'.actionInProgress && s'.lastTime == e.input.now))
  {
    hide UpdateSearch, React;
    if e.Tick? && e.input.config.autopilotManagerEnabled && e.input.config.decisionMakerInputType.SafeLanding? {
      var t := e.input;
      var c := UpdateAvoidance(s.(config := t.config), t.rosNow);
      if t.config.safeLandingEnabled && c.avoidanceEnabled {
        ReactKeepsTimer(c, t);
        ProcessEndsSearch(if Intervenes(c, t) then Intervene(c, t).0 else c, t);
      }
    }
  }

  /** Exactly when an action is pending after an enabled tick: it was before or the tick triggered one, and
      the timer, which the tick may have set, is less than five seconds old. */
  lemma PendingRule(s: State, t: TickInput)
    requires t.config.autopilotManagerEnabled
    ensures var s' := TickStep(s, t).0;
            s'.actionInProgress <==> (s.actionInProgress || Triggers(s, t)) && t.now - s'.lastTime < 5000
  {
    hide UpdateSearch, React;
    if t.config.decisionMakerInputType.SafeLanding? {
      var c := UpdateAvoidance(s.(config := t.config), t.rosNow);
      if t.config.safeLandingEnabled && c.avoidanceEnabled {
        ReactKeepsPending(c, t);
        ProcessEndsSearch(if Intervenes(c, t) then Intervene(c, t).0 else c, t);
      }
    }
  }

  lemma ReactKeepsPending(s: State, t: TickInput)
    ensures React(s, t).0.actionInProgress == s.actionInProgress
  {
  }

  lemma ReactKeepsTimer(s: State, t: TickInput)
    ensures React(s, t).0.lastTime == s.lastTime
  {
  }

  ghost predicate AllAtLeast(times: seq<int>, bound: int) {
    forall i :: 0 <= i < |times| ==> times[i] >= bound
  }

  /** While an action is pending, nothing is triggered until five seconds after the retry timer was
      last set; every tick that sees an active search sets it again. */
  lemma {:induction false} QuietPeriod(s: State, events: seq<Event>, clock: int, bound: int)
    requires s.lastTime <= clock
    requires ClockFrom(clock, events)
    requires bound <= clock || (s.actionInProgress && bound <= s.lastTime + RETRY_MILLISECONDS)
    ensures AllAtLeast(TriggerTimes(s, events), bound)
    decreases events
  {
    hide Next, Triggers;
    if events != [] {
      var e, rest := events[0], events[1..];
      TimerStep(s, e, clock);
      QuietPeriod(Next(s, e), rest, if e.Tick? then e.input.now else clock, bound);
    }
  }

  /** Any two triggers of a run are at least five seconds apart, whichever handlers they come from
      and however the configuration changes in between. */
  lemma {:induction false} TriggersAreSpaced(s: State, events: seq<Event>, clock: int)
    requires s.lastTime <= clock
    requires ClockFrom(clock, events)
    ensures forall i, j :: 0 <= i < j < |TriggerTimes(s, events)| ==>
              TriggerTimes(s, events)[j] >= TriggerTimes(s, events)[i] + 5000
    decreases events
  {
    hide Next, Triggers;
    if events != [] {
      var e, rest := events[0], events[1..];
      TimerStep(s, e, clock);
      var clock' := if e.Tick? then e.input.now else clock;
      TriggersAreSpaced(Next(s, e), rest, clock');
      if e.Tick? && Triggers(s, e.input) {
        QuietPeriod(Next(s, e), rest, clock', e.input.now + RETRY_MILLISECONDS);
        var later := TriggerTimes(Next(s, e), rest);
        assert TriggerTimes(s, events) == [e.input.now] + later;
      }
    }
  }

  /** After a safe-landing tick that leaves a search active with an action pending, nothing is
      triggered for five seconds, whatever happens next. */
  lemma NothingAfterActiveTick(s: State, t: TickInput, events: seq<Event>)
    requires Invariant(s) && ActiveIsBusy(s)
    requires t.config.autopilotManagerEnabled && t.config.decisionMakerInputType.SafeLanding?
    requires s.lastTime <= t.now
    requires Active(TickStep(s, t).0.phase)
    requires ClockFrom(t.now, events)
    ensures AllAtLeast(TriggerTimes(TickStep(s, t).0, events), t.now + RETRY_MILLISECONDS)
  {
    ActiveAfterTick(s, t);
    BusyRule(s, Tick(t));
    QuietPeriod(TickStep(s, t).0, events, t.now, t.now + RETRY_MILLISECONDS);
  }

  // ----- after the last tick that saw a search

  /** Nothing is triggered until five seconds after the tick, whatever happens next. */
  ghost predicate QuietAfter(s: State, t: TickInput) {
    forall events :: ClockFrom(t.now, events) ==>
      AllAtLeast(TriggerTimes(TickStep(s, t).0, events), t.now + 5000)
  }

  /** The tick is served with safe landing enabled and trajectory messages less than 0.5 s old. */
  predicate Served(s: State, t: TickInput) {
    t.config.safeLandingEnabled && t.rosNow - s.timeLastTraj < 0.5
  }

  /** What a safe-landing tick that sees a search active does to the retry timer: if it is served it sets
      it, whether the search goes on or ends; otherwise it ends the search and leaves the timer alone. */
  lemma SearchTickTimer(s: State, t: TickInput)
    requires Invariant(s) && ActiveIsBusy(s) && Active(s.phase)
    requires t.config.autopilotManagerEnabled && t.config.decisionMakerInputType.SafeLanding?
    ensures var s' := TickStep(s, t).0;
            if Served(s, t) then
              s'.actionInProgress && s'.lastTime == t.now
            else
              && s'.lastTime == s.lastTime
              && s'.actionInProgress == (t.now - s.lastTime < RETRY_MILLISECONDS)
  {
    hide UpdateSearch, React;
    var c := UpdateAvoidance(s.(config := t.config), t.rosNow);
    if Served(s, t) {
      ProcessEndsSearch(c, t);
    }
  }

  /** A tick that serves another input type and asks for nothing. */
  function OtherTick(t: TickInput, now: int): TickInput {
    t.(config := t.config.(autopilotManagerEnabled := true, decisionMakerInputType := OtherInput), now := now)
  }

  /** A tick that finds that the vehicle cannot land. */
  function CannotLandTick(t: TickInput, now: int): TickInput {
    t.(config := t.config.(autopilotManagerEnabled := true, decisionMakerInputType := SafeLanding,
                           safeLandingEnabled := true),
       now := now, rosNow := 0.0, mapper := CAN_NOT_LAND)
  }

  function EmptyMessage(): TrajectoryInput {
    TrajectoryInput(false, 0.0, TrajectoryMessage(0, None, None, None, None, None, None, None, []),
                    0.0, 0.0, 0.0, None, 0.0, 0.0, 0.0, 0.0)
  }

  /** A run that triggers an action as soon as five seconds have passed since the timer was set. */
  function Retrigger(t: TickInput, now: int): seq<Event> {
    [Tick(OtherTick(t, now)), FlightModeChange(LandMode), Trajectory(EmptyMessage()), Tick(CannotLandTick(t, now))]
  }

  lemma RetriggerStates(s: State, t: TickInput, now: int)
    requires s.actionInProgress ==> now - s.lastTime >= RETRY_MILLISECONDS
    ensures var events := Retrigger(t, now);
            var s3 := Next(Next(Next(s, events[0]), events[1]), events[2]);
            Triggers(s3, CannotLandTick(t, now))
  {
    var events := Retrigger(t, now);
    var s1 := Next(s, events[0]);
    assert !s1.actionInProgress;
    hide HandleSafeLanding, HandleCollisionAvoidance;
    var s2 := Next(s1, events[1]);
    assert !s2.actionInProgress && s2.flightMode == LandMode;
    var s3 := Next(s2, events[2]);
    assert !s3.actionInProgress && s3.flightMode == LandMode && s3.timeLastTraj == 0.0;
  }

  lemma RetriggerTriggers(s: State, t: TickInput, now: int)
    requires s.actionInProgress ==> now - s.lastTime >= RETRY_MILLISECONDS
    ensures now in TriggerTimes(s, Retrigger(t, now))
  {
    hide Next, Triggers;
    RetriggerStates(s, t, now);
    var events := Retrigger(t, now);
    var s1 := Next(s, events[0]);
    var s2 := Next(s1, events[1]);
    var s3 := Next(s2, events[2]);
    assert TriggerTimes(s3, events[3..]) == [now] + TriggerTimes(Next(s3, events[3]), events[3..][1..]);
    assert events[1..][1..] == events[2..] && events[2..][1..] == events[3..];
    assert now in TriggerTimes(s2, events[2..]);
    assert now in TriggerTimes(s1, events[1..]);
  }

  lemma RetriggerClock(t: TickInput, start: int, now: int)
    requires start <= now
    ensures ClockFrom(start, Retrigger(t, now))
  {
    var events := Retrigger(t, now);
    assert events[1..][1..] == events[2..] && events[2..][1..] == events[3..] && events[3..][1..] == [];
    assert ClockFrom(now, events[3..]);
    assert ClockFrom(now, events[2..]);
    assert ClockFrom(now, events[1..]);
  }

  /** After a safe-landing tick that sees a search active, be it the last one, nothing is triggered for
      five seconds if and only if the tick is served, or the timer happens to have been set at the very
      same time. A tick that finds safe landing disabled or avoidance lost ends the search without setting
      the timer. */
  lemma QuietAfterSearch(s: State, t: TickInput)
    requires Invariant(s) && ActiveIsBusy(s) && Active(s.phase)
    requires t.config.autopilotManagerEnabled && t.config.decisionMakerInputType.SafeLanding?
    requires s.lastTime <= t.now
    ensures QuietAfter(s, t) <==> Served(s, t) || t.now == s.lastTime
  {
    hide TickStep, Served, Triggers, Invariant, Next;
    SearchTickTimer(s, t);
    var s' := TickStep(s, t).0;
    if Served(s, t) || t.now == s.lastTime {
      forall events | ClockFrom(t.now, events)
        ensures AllAtLeast(TriggerTimes(s', events), t.now + RETRY_MILLISECONDS)
      {
        QuietPeriod(s', events, t.now, t.now + RETRY_MILLISECONDS);
      }
    } else {
      var now := if t.now <= s.lastTime + RETRY_MILLISECONDS then s.lastTime + RETRY_MILLISECONDS else t.now;
      var events := Retrigger(t, now);
      RetriggerTriggers(s', t, now);
      RetriggerClock(t, t.now, now);
      hide Retrigger;
      EarlyTrigger(TriggerTimes(s', events), now, t.now + RETRY_MILLISECONDS);
    }
  }

  lemma EarlyTrigger(times: seq<int>, now: int, bound: int)
    requires now in times && now < bound
    ensures !AllAtLeast(times, bound)
  {
    var i :| 0 <= i < |times| && times[i] == now;
    assert times[i] < bound;
  }

  lemma {:induction false} TimerFollowsClock(s: State, before: seq<Event>, t: TickInput, clock: int)
    requires s.lastTime <= clock
    requires ClockFrom(clock, before + [Tick(t)])
    ensures Run(s, before).lastTime <= t.now
    decreases before
  {
    hide Next, Triggers;
    if before == [] {
      assert before + [Tick(t)] == [Tick(t)];
    } else {
      var e := before[0];
      assert (before + [Tick(t)])[1..] == before[1..] + [Tick(t)];
      TimerStep(s, e, clock);
      TimerFollowsClock(Next(s, e), before[1..], t, if e.Tick? then e.input.now else clock);
    }
  }

  /** Over every run: when no search has been stranded, the last served safe-landing tick that sees a
      search active keeps everything quiet for five seconds. */
  lemma NothingAfterSearch(now: int, rosNow: real, config: Config, before: seq<Event>, t: TickInput)
    requires NeverStrands(Initial(now, rosNow, config), before)
    requires ClockFrom(now, before + [Tick(t)])
    requires t.config.autopilotManagerEnabled && t.config.decisionMakerInputType.SafeLanding?
    ensures var s := Run(Initial(now, rosNow, config), before);
            Active(s.phase) ==> s.lastTime <= t.now && (QuietAfter(s, t) <==> Served(s, t) || t.now == s.lastTime)
  {
    var s0 := Initial(now, rosNow, config);
    assert Invariant(s0) && ActiveIsBusy(s0);
    hide NeverStrands, Run, QuietAfter, Served, Invariant, ActiveIsBusy, ClockFrom;
    RunKeepsInvariant(s0, before);
    RunKeepsBusy(s0, before);
    assert before[..|before|] == before;
    assert ActiveIsBusy(Run(s0, before[..|before|]));
    TimerFollowsClock(s0, before, t, now);
    if Active(Run(s0, before).phase) {
      QuietAfterSearch(Run(s0, before), t);
    }
  }
}
