/** A search that ends because safe landing is disabled or avoidance is lost does not set the retry timer:
    reachable ticks after which an action is triggered too early. */
module MissionRetrigger {
  import opened MissionSafety
  import opened MissionStaleVelocity
  import opened MissionSteps
  import opened MissionTiming
  import opened MissionTypes

  /** One millisecond into the search, safe landing is disabled. */
  function DisablingTick(): TickInput {
    SearchTick(1).(config := Searches().(safeLandingEnabled := false))
  }

  /** One millisecond into the search, the last trajectory message is a second old. */
  function LosingTick(): TickInput {
    SearchTick(1).(rosNow := 1.0)
  }

  /** The tick ends the search, and not everything is quiet for five seconds after it. */
  ghost predicate EndsWithoutTimer(s: State, t: TickInput) {
    && Reaches(Initial(0, 0.0, Searches()), s)
    && Active(s.phase) && !Active(TickStep(s, t).0.phase)
    && s.lastTime <= t.now
    && !QuietAfter(s, t)
  }

  lemma SearchEndsWithoutTimer()
    ensures EndsWithoutTimer(FirstSearch(), DisablingTick())
    ensures EndsWithoutTimer(FirstSearch(), LosingTick())
  {
    ReachesFirstSearch();
    var s := FirstSearch();
    assert !Active(TickStep(s, DisablingTick()).0.phase) && !Active(TickStep(s, LosingTick()).0.phase);
    hide TickStep, QuietAfter, Reaches;
    QuietAfterSearch(s, DisablingTick());
    QuietAfterSearch(s, LosingTick());
  }
}
