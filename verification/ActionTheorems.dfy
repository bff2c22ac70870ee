/** What the action protocol guarantees over whole runs, and when waiting for the reporter ends. */
module ActionTheorems {
  import opened ActionProtocol
  import opened ActionSafety

  lemma {:induction false} RunAppend(s: State, events: seq<Event>, e: Event)
    ensures Run(s, events + [e]) == Next(Run(s, events), e)
    decreases events
  {
    hide Next;
    if events == [] {
      assert ([] + [e])[1..] == [] && Run(Next(s, e), []) == Next(s, e);
    } else {
      assert (events + [e])[1..] == events[1..] + [e];
      RunAppend(Next(s, events[0]), events[1..], e);
    }
  }

  lemma PrefixShift(s: State, events: seq<Event>)
    requires events != []
    ensures Run(s, events[..1]) == Next(s, events[0])
    ensures forall n :: 0 < n <= |events| ==> Run(s, events[..n]) == Run(Next(s, events[0]), events[1..][..n - 1])
    ensures events[..0] == [] && Run(s, events[..0]) == s
  {
    hide Next;
    forall n | 0 < n <= |events|
      ensures Run(s, events[..n]) == Run(Next(s, events[0]), events[1..][..n - 1])
    {
      assert events[..n][1..] == events[1..][..n - 1];
    }
    assert Run(Next(s, events[0]), []) == Next(s, events[0]);
    assert events[1..][..0] == [];
  }

  /** Under every interleaving of worker, reporter, cancellations and arrivals: a response that says
      success is only ever sent for an action all of whose stages (or whose script) returned success;
      the progress sent for one action never decreases; and a live reporter finds its own action's
      entry at the end of both vectors. */
  lemma ResponsesAreSound(events: seq<Event>)
    ensures var s := Run(Initial(), events);
            && (forall i :: 0 <= i < |s.sent| && s.sent[i].result == Success ==>
                  s.sent[i].entry < |s.metadata| == |s.returned|
                  && Complete(s.metadata[s.sent[i].entry], s.returned[s.sent[i].entry]))
            && (forall i, j :: 0 <= i < j < |s.sent| && s.sent[i].entry == s.sent[j].entry ==>
                  s.sent[i].progress <= s.sent[j].progress)
            && (!s.reporter.Absent? ==> |s.results| - 1 == |s.progress| - 1 == s.reporterEntry)
  {
    InitialInvariant();
    RunKeepsInvariant(Initial(), events);
    hide Complete, AtPoint;
  }

  /** When the worker has stopped working on an action, its outcome is settled: the stages executed
      are an in-order prefix with at most the last one failed; the progress is the share of acknowledged
      stages; the sentinel stands for a full success, error for a failed stage, and anything else for a
      cancelled action. */
  lemma OutcomeIsSettled(events: seq<Event>)
    ensures var s := Run(Initial(), events);
            HasEntry(s) && (s.worker.Join? || s.worker.Finish? || Idle(s.worker)) ==>
              var m, returned, result := Last(s.metadata), Last(s.returned), Last(s.results);
              && PrefixRun(m, returned)
              && (forall i :: 0 <= i < |returned| ==> returned[i].stage == i)
              && s.acknowledged <= |returned| <= s.acknowledged + 1
              && Last(s.progress) == Percent(s.acknowledged, Units(m))
              && (Last(s.progress) == 100.0 <==> s.acknowledged == Units(m))
              && result != Success
              && (s.acknowledged == Units(m) ==> result == Unknown && Complete(m, returned))
              && (m.stages > 0 ==>
                    && (result == Unknown <==> s.acknowledged == m.stages)
                    && (result == Error <==> Failed(returned))
                    && (result == InProgress <==> result != Unknown && result != Error))
  {
    InitialInvariant();
    RunKeepsInvariant(Initial(), events);
    var s := Run(Initial(), events);
    SettledPoint(s);
    if HasEntry(s) {
      PercentOrder(s.acknowledged, s.acknowledged, Units(Last(s.metadata)));
    }
    hide Invariant, Complete, Run, AtPoint, Percent;
  }

  lemma SettledPoint(s: State)
    requires Invariant(s)
    ensures HasEntry(s) && (s.worker.Join? || s.worker.Finish? || Idle(s.worker)) ==>
              Settled(Last(s.metadata), View(s)) && Measured(Last(s.metadata), View(s))
  {
    hide Aligned, Honest, Monotone, Settled, Ended, Measured;
  }

  ghost predicate Reaches(s: State, t: State) {
    exists events :: Run(s, events) == t
  }

  lemma ReachesSelf(s: State)
    ensures Reaches(s, s)
  {
    assert Run(s, []) == s;
  }

  lemma ReachesStep(s: State, t: State, e: Event)
    requires Reaches(s, t)
    ensures Reaches(s, Next(t, e))
  {
    var events :| Run(s, events) == t;
    RunAppend(s, events, e);
  }

  /** A worker that has just fetched the first action. */
  function Fetched(): State {
    Initial().(newAction := true, actions := [1], worker := PushMetadata(1))
  }

  lemma ReachesFetched()
    ensures Reaches(Initial(), Fetched())
  {
    hide Run;
    var s0, w := Initial(), WorkerStep(Metadata(0, 0, false, OtherCondition), Unknown);
    ReachesSelf(s0);
    ReachesStep(s0, s0, Arrive(1, true));
    var s1 := s0.(arrival := Append(1));
    ReachesStep(s0, s1, ArrivalStep);
    var s2 := s0.(actions := [1], arrival := Announce);
    assert Next(s1, ArrivalStep) == s2;
    ReachesStep(s0, s2, ArrivalStep);
    var s3 := s0.(actions := [1], newAction := true);
    ReachesStep(s0, s3, w);
    var s4 := s3.(worker := Fetch);
    assert Next(s3, w) == s4;
    ReachesStep(s0, s4, w);
    assert Next(s4, w) == Fetched();
  }

  /** The state of the first action right after its reporter was started. */
  function Spawned(m: Metadata): State {
    State(false, true, [1], [m], [InProgress], [0.0], FirstStep(m), NoArrival, CheckStop, 0, 1, [1], [[]], 0, false, [])
  }

  lemma ReachesSpawned(m: Metadata)
    ensures Reaches(Initial(), Spawned(m))
  {
    hide LocalNext, Run;
    var s0, w := Fetched(), WorkerStep(m, Success);
    ReachesFetched();
    ReachesStep(Initial(), s0, w);
    var s1 := s0.(worker := PushResult, metadata := [m], returned := [[]], fetched := [1]);
    assert Next(s0, w) == s1;
    ReachesStep(Initial(), s1, w);
    var s2 := s1.(worker := PushProgress, results := [InProgress]);
    assert Next(s1, w) == s2;
    ReachesStep(Initial(), s2, w);
    var s3 := s2.(worker := Spawn, progress := [0.0]);
    assert Next(s2, w) == s3;
    ReachesStep(Initial(), s3, w);
    assert Next(s3, w) == Spawned(m);
  }

  /** The reporter has read the progress of an action whose only stage is about to be acknowledged. */
  function Torn(m: Metadata): State {
    Spawned(m).(worker := UpdateProgress(0), reporter := ReadResult(0.0, 0), returned := [[Execution(0, Success)]])
  }

  lemma ReachesTorn(m: Metadata)
    requires m.stages == 1
    ensures Reaches(Initial(), Torn(m))
  {
    hide Run;
    var w, s0 := WorkerStep(m, Success), Spawned(m);
    ReachesSpawned(m);
    ReachesStep(Initial(), s0, ReporterStep);
    ReachesStep(Initial(), Next(s0, ReporterStep), ReporterStep);
    var s2 := s0.(reporter := ReadProgress);
    assert Next(Next(s0, ReporterStep), ReporterStep) == s2;
    ReachesStep(Initial(), s2, ReporterStep);
    var s3 := s0.(reporter := ReadResult(0.0, 0));
    ReachesStep(Initial(), s3, w);
    ReachesStep(Initial(), Next(s3, w), w);
    var executed := [Execution(0, Success)];
    var s5 := s3.(worker := StageWait(0), returned := [executed]);
    assert Next(s3, w) == s3.(worker := StageExecute(0));
    assert Last(s3.returned) + executed == executed;
    assert SetLast(s3.returned, executed) == [executed];
    assert SetLast(s3.results, InProgress) == s3.results && SetLast(s3.progress, 0.0) == s3.progress;
    assert Next(s3.(worker := StageExecute(0)), w) == s5;
    ReachesStep(Initial(), s5, w);
    assert Next(s5, w) == s5.(worker := UpdateCheck(0));
    ReachesStep(Initial(), Next(s5, w), w);
  }

  /** The two reads of the reporter are not one: a response may say success next to a progress that
      was read before the last stage was acknowledged. */
  lemma TornResponse(m: Metadata)
    requires m.stages == 1
    ensures exists events :: Run(Initial(), events).sent == [Response(0, 0.0, 0, Success, 1)]
  {
    hide Run;
    var w, s0 := WorkerStep(m, Success), Torn(m);
    ReachesTorn(m);
    PercentOrder(1, 1, 1);
    ReachesStep(Initial(), s0, w);
    var s1 := s0.(worker := UpdateResult(0), progress := [100.0], acknowledged := 1);
    assert Next(s0, w) == s1;
    ReachesStep(Initial(), s1, w);
    var s2 := s1.(worker := StageCheck(1), results := [Success]);
    assert Next(s1, w) == s2;
    ReachesStep(Initial(), s2, ReporterStep);
    ReachesStep(Initial(), Next(s2, ReporterStep), ReporterStep);
    var s4 := Next(Next(s2, ReporterStep), ReporterStep);
    assert s4.sent == [Response(0, 0.0, 0, Success, 1)];
    var events :| Run(Initial(), events) == s4;
  }

  /** Steps the reporter needs at most until it leaves, once something stops it. */
  function StepsToLeave(r: Reporter): nat {
    match r
    case Absent => 0
    case Done => 0
    case CheckResult => 1
    case CheckStop => 2
    case Sleep => 3
    case Send(_, _, _) => 4
    case ReadResult(_, _) => 5
    case ReadProgress => 6
  }

  function ReporterSteps(events: seq<Event>): nat {
    if events == [] then 0 else (if events[0].ReporterStep? then 1 else 0) + ReporterSteps(events[1..])
  }

  /** The worker waits to join a reporter that is still alive. */
  predicate Joining(s: State) {
    HasEntry(s) && s.worker.Join? && !s.reporter.Absent?
  }

  /** A state in which the reporter is told to leave, by the sentinel or the stop flag. */
  predicate ToldToLeave(s: State)
    requires HasEntry(s)
  {
    Last(s.results) == Unknown || s.stopped
  }

  predicate NoCancel(events: seq<Event>) {
    forall i :: 0 <= i < |events| ==> !events[i].Cancel?
  }

  predicate NoWorker(events: seq<Event>) {
    forall i :: 0 <= i < |events| ==> !events[i].WorkerStep?
  }

  /** The reporter's next step when it is told to leave, while the worker waits. */
  lemma LeavingStep(s: State, e: Event)
    requires Joining(s) && Last(s.results) == Unknown && s.reporter != Done
    ensures var s' := Next(s, e);
            && Joining(s') && Last(s'.results) == Unknown
            && StepsToLeave(s'.reporter) + (if e.ReporterStep? then 1 else 0) <= StepsToLeave(s.reporter)
  {
  }

  /** The success path needs no timing assumption: once the sentinel is written, six reporter steps end
      the join, whatever cancellations, arrivals and worker steps are interleaved. */
  lemma {:induction false} SuccessJoinCompletes(s: State, events: seq<Event>)
    requires Joining(s) && Last(s.results) == Unknown
    requires ReporterSteps(events) >= StepsToLeave(s.reporter)
    ensures exists n :: 0 <= n <= |events| && Joining(Run(s, events[..n])) && Run(s, events[..n]).reporter == Done
    decreases events
  {
    if s.reporter == Done {
      assert events[..0] == [] && Run(s, events[..0]) == s;
    } else {
      assert events != [];
      var e, rest := events[0], events[1..];
      LeavingStep(s, e);
      hide Next, Joining;
      SuccessJoinCompletes(Next(s, e), rest);
      var n :| 0 <= n <= |rest| && Joining(Run(Next(s, e), rest[..n])) && Run(Next(s, e), rest[..n]).reporter == Done;
      assert events[..n + 1] == [e] + rest[..n];
      assert Run(s, events[..n + 1]) == Run(Next(s, e), rest[..n]);
    }
  }

  /** Steps the reporter needs until it sees a raised stop flag. */
  function StepsUnderFlag(r: Reporter): nat {
    match r
    case Absent => 0
    case Done => 0
    case CheckStop => 1
    case Sleep => 2
    case Send(_, _, _) => 3
    case ReadResult(_, _) => 4
    case ReadProgress => 5
    case CheckResult => 6
  }

  /** While the stop flag is raised and the worker rests, six reporter steps (one round) make it leave. */
  lemma {:induction false} RaisedFlagEndsReporter(s: State, events: seq<Event>)
    requires HasEntry(s) && s.stopped && !s.reporter.Absent?
    requires NoWorker(events)
    ensures var s' := Run(s, events);
            && s'.stopped && s'.worker == s.worker
            && (ReporterSteps(events) >= StepsUnderFlag(s.reporter) ==> s'.reporter == Done)
    decreases events
  {
    if events != [] {
      var e := events[0];
      assert NoWorker(events[1..]);
      StoppedStep(s, e);
      hide Next;
      RaisedFlagEndsReporter(Next(s, e), events[1..]);
    }
  }

  lemma StoppedReporter(s: State)
    requires HasEntry(s) && s.stopped && !s.reporter.Absent?
    ensures var r := ReporterNext(s).reporter;
            && StepsUnderFlag(r) <= StepsUnderFlag(s.reporter)
            && (StepsUnderFlag(r) == 0 || StepsUnderFlag(r) < StepsUnderFlag(s.reporter))
            && (StepsUnderFlag(r) == 0 ==> r == Done)
  {
  }

  lemma StoppedStep(s: State, e: Event)
    requires HasEntry(s) && s.stopped && !s.reporter.Absent? && !e.WorkerStep?
    ensures var s' := Next(s, e);
            && HasEntry(s') && s'.stopped && s'.worker == s.worker && !s'.reporter.Absent?
            && StepsUnderFlag(s'.reporter) <= StepsUnderFlag(s.reporter)
            && (e.ReporterStep? ==>
                  StepsUnderFlag(s'.reporter) == 0 || StepsUnderFlag(s'.reporter) < StepsUnderFlag(s.reporter))
            && (StepsUnderFlag(s.reporter) == 0 ==> s'.reporter == Done)
            && (StepsUnderFlag(s'.reporter) == 0 ==> s'.reporter == Done)
  {
    hide WorkerNext, ReporterNext;
    if e.ReporterStep? {
      StoppedReporter(s);
      ReporterFrame(s);
    } else {
      CallbackFrame(s, e);
      hide Next;
    }
  }

  lemma LeftStep(s: State, e: Event)
    requires Aligned(s) && s.reporter == Done
    ensures Next(s, e).reporter == Done || (s.worker.Join? && Next(s, e).worker.Finish?)
  {
  }

  /** Over any run a reporter that has left stays away until the worker has joined it. */
  lemma {:induction false} LeftUntilJoined(s: State, events: seq<Event>)
    requires Invariant(s) && s.reporter == Done
    ensures Run(s, events).reporter == Done || exists n :: 0 <= n < |events| && JoinedAt(s, events, n)
    decreases events
  {
    hide Next, Invariant, JoinedAt;
    if events != [] {
      var e, rest := events[0], events[1..];
      InvariantAligned(s);
      LeftStep(s, e);
      StepKeepsInvariant(s, e);
      PrefixShift(s, events);
      if Next(s, e).reporter == Done {
        LeftUntilJoined(Next(s, e), rest);
        if exists n :: 0 <= n < |rest| && JoinedAt(Next(s, e), rest, n) {
          var n :| 0 <= n < |rest| && JoinedAt(Next(s, e), rest, n);
          JoinedShift(s, events, n);
        }
      } else {
        JoinedNow(s, events);
      }
    }
  }

  /** Step n of the run joins the reporter. */
  predicate JoinedAt(s: State, events: seq<Event>, n: nat)
    requires n < |events|
  {
    && Run(s, events[..n]).worker.Join? && Run(s, events[..n]).reporter == Done
    && Run(s, events[..n + 1]).worker.Finish?
  }

  lemma JoinedShift(s: State, events: seq<Event>, n: nat)
    requires events != [] && n < |events| - 1
    requires JoinedAt(Next(s, events[0]), events[1..], n)
    ensures JoinedAt(s, events, n + 1)
  {
    hide Next, Run;
    PrefixShift(s, events);
  }

  lemma JoinedNow(s: State, events: seq<Event>)
    requires events != []
    requires s.worker.Join? && s.reporter == Done && Next(s, events[0]).worker.Finish?
    ensures JoinedAt(s, events, 0)
  {
    hide Next, Run;
    PrefixShift(s, events);
  }

  lemma InvariantAligned(s: State)
    requires Invariant(s)
    ensures Aligned(s)
  {
  }

  /** Missing the window is fatal: a reporter that is not told to leave never does, so that without a
      further cancellation the join never ends. */
  lemma {:induction false} MissedWindowBlocks(s: State, events: seq<Event>)
    requires Joining(s) && !ToldToLeave(s) && s.reporter != Done
    requires NoCancel(events)
    ensures var s' := Run(s, events); Joining(s') && !ToldToLeave(s') && s'.reporter != Done
    decreases events
  {
    if events != [] {
      assert NoCancel(events[1..]);
      BlockedStep(s, events[0]);
      hide Next, Joining, ToldToLeave;
      MissedWindowBlocks(Next(s, events[0]), events[1..]);
    }
  }

  lemma BlockedStep(s: State, e: Event)
    requires Joining(s) && !ToldToLeave(s) && s.reporter != Done && !e.Cancel?
    ensures var s' := Next(s, e); Joining(s') && !ToldToLeave(s') && s'.reporter != Done
  {
  }

  /** Exactly when waiting for the reporter can end without another cancellation: it has already left,
      or it is told to leave by the sentinel or by the stop flag. */
  lemma JoinCanComplete(s: State)
    requires Joining(s)
    ensures (exists events :: NoCancel(events) && Run(s, events).reporter == Done)
            <==> s.reporter == Done || ToldToLeave(s)
  {
    if s.reporter == Done {
      assert NoCancel([]) && Run(s, []).reporter == Done;
    } else if Last(s.results) == Unknown || s.stopped {
      var round := [ReporterStep, ReporterStep, ReporterStep, ReporterStep, ReporterStep, ReporterStep];
      assert NoCancel(round) && NoWorker(round);
      CountRound();
      if s.stopped {
        RaisedFlagEndsReporter(s, round);
      } else {
        SuccessJoinCompletes(s, round);
        var n :| 0 <= n <= |round| && Joining(Run(s, round[..n])) && Run(s, round[..n]).reporter == Done;
        assert NoCancel(round[..n]);
      }
    } else if exists events :: NoCancel(events) && Run(s, events).reporter == Done {
      var events :| NoCancel(events) && Run(s, events).reporter == Done;
      MissedWindowBlocks(s, events);
    }
  }

  lemma CountRound()
    ensures ReporterSteps([ReporterStep, ReporterStep, ReporterStep, ReporterStep, ReporterStep, ReporterStep]) == 6
  {
    var r := ReporterStep;
    assert ReporterSteps([r]) == 1;
    assert [r, r][1..] == [r] && ReporterSteps([r, r]) == 2;
    assert [r, r, r][1..] == [r, r] && ReporterSteps([r, r, r]) == 3;
    assert [r, r, r, r][1..] == [r, r, r] && ReporterSteps([r, r, r, r]) == 4;
    assert [r, r, r, r, r][1..] == [r, r, r, r] && ReporterSteps([r, r, r, r, r]) == 5;
    assert [r, r, r, r, r, r][1..] == [r, r, r, r, r];
  }

  lemma SameEntries(m: Metadata)
    ensures var s := Spawned(m);
            SetLast(s.returned, []) == s.returned && SetLast(s.results, InProgress) == s.results
            && SetLast(s.progress, 0.0) == s.progress
  {
  }

  lemma ReachesLowered(m: Metadata)
    requires m.stages == 0 && !m.hasGlobalScript
    ensures Reaches(Initial(), Spawned(m).(worker := Clear))
  {
    hide Run, Reaches, GlobalNext, ReporterNext;
    var w, s0 := WorkerStep(m, Success), Spawned(m);
    ReachesSpawned(m);
    SameEntries(m);
    ReachesStep(Initial(), s0, w);
    var s1 := s0.(worker := Lower, stopped := true);
    assert Next(s0, w) == s1;
    ReachesStep(Initial(), s1, w);
    assert Next(s1, w) == s0.(worker := Clear);
  }

  /** The window is really missed by some runs: an action without stages whose reporter gets no step
      while the flag is raised leaves the worker waiting for good. */
  lemma WindowCanBeMissed(m: Metadata)
    requires m.stages == 0 && !m.hasGlobalScript
    ensures exists s :: Reaches(Initial(), s) && Joining(s) && !ToldToLeave(s) && s.reporter != Done
  {
    hide Run, Reaches, ReporterNext;
    var w, s0 := WorkerStep(m, Success), Spawned(m).(worker := Clear);
    ReachesLowered(m);
    SameEntries(m);
    ReachesStep(Initial(), s0, w);
    var s1 := s0.(worker := FinalCheck, actions := []);
    assert Next(s0, w) == s1;
    ReachesStep(Initial(), s1, w);
    assert Next(s1, w) == s1.(worker := Join);
    assert Joining(s1.(worker := Join));
  }
}
