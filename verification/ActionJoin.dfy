/** Every fetched action comes to an end: the reporter is joined and the worker waits again. */
module ActionJoin {
  import opened ActionProtocol
  import opened ActionSafety
  import opened ActionTheorems

  /** One iteration of the reporter, in steps. */
  const ROUND: nat := 6

  // ----- the raised flag reaches the reporter

  /** The reporter's iteration is shorter than the time the stop flag stays raised: whenever the worker
      lowers the flag, the reporter has made at least one round of steps since it was raised. `k` counts
      the steps it has made since then. */
  predicate Windowed(s: State, events: seq<Event>, k: nat)
    decreases events
  {
    events != [] ==>
      && (s.worker.Lower? && events[0].WorkerStep? ==> k >= ROUND)
      && Windowed(Next(s, events[0]), events[1..], StepsSinceRaise(s, events[0], k))
  }

  function StepsSinceRaise(s: State, e: Event, k: nat): nat {
    if !s.worker.Lower? then 0 else if e.ReporterStep? then k + 1 else k
  }

  /** What is known of the reporter after k of its steps since the flag was raised. */
  predicate Leaving(s: State, k: nat) {
    && Invariant(s)
    && (s.worker.Lower? ==>
          && s.stopped && HasEntry(s) && !s.reporter.Absent?
          && StepsUnderFlag(s.reporter) <= (if k <= ROUND then ROUND - k else 0)
          && (k >= ROUND ==> s.reporter == Done))
    && (s.worker.Clear? || s.worker.FinalCheck? || s.worker.FinalUnknown? || s.worker.Join? ==> s.reporter == Done)
  }

  /** Where the worker's next point comes from, near the end of its program. */
  lemma EndPoints(s: State, m: Metadata, answer: Result)
    requires Invariant(s)
    ensures var s' := WorkerNext(s, m, answer);
            && (s'.worker.Lower? ==> s.worker.Raise? && s'.stopped && HasEntry(s') && s'.reporter == s.reporter)
            && (s'.worker.Clear? ==> s.worker.Lower?)
            && (s'.worker.FinalCheck? ==> s.worker.Clear?)
            && (s'.worker.FinalUnknown? ==> s.worker.FinalCheck?)
            && (s'.worker.Join? ==> s.worker.FinalCheck? || s.worker.FinalUnknown? || s.worker.Join?)
  {
    hide Known, Honest, Monotone, LocalNext;
    if LocalPoint(s.worker) {
      if HasEntry(s) {
        LocalEndPoints(Last(s.metadata), View(s), answer);
        StoreView(s, LocalNext(Last(s.metadata), View(s), answer));
        hide GlobalNext;
      }
    } else {
      GlobalEndPoints(s, m);
      assert WorkerNext(s, m, answer) == GlobalNext(s, m);
      hide WorkerNext, GlobalNext;
    }
  }

  lemma GlobalEndPoints(s: State, m: Metadata)
    requires !LocalPoint(s.worker)
    ensures var w := GlobalNext(s, m).worker;
            && !w.Lower? && !w.Clear? && !w.FinalUnknown?
            && (w.FinalCheck? ==> s.worker.Clear?)
            && (w.Join? ==> s.worker.Join?)
  {
    hide FirstStep;
    if s.metadata != [] {
      FirstPoint(Last(s.metadata));
    }
  }

  lemma FirstPoint(m: Metadata)
    ensures var w := FirstStep(m); w.StageCheck? || w.ScriptCheck? || w.Raise?
  {
  }

  lemma LocalEndPoints(m: Metadata, l: Local, answer: Result)
    requires LocalPoint(l.worker)
    ensures var l' := LocalNext(m, l, answer);
            && (l'.worker.Lower? ==> l.worker.Raise? && l'.stopped)
            && (l'.worker.Clear? ==> l.worker.Lower?)
            && !l'.worker.FinalCheck?
            && (l'.worker.FinalUnknown? ==> l.worker.FinalCheck?)
            && (l'.worker.Join? ==> l.worker.FinalCheck? || l.worker.FinalUnknown?)
  {
  }

  lemma LeavingWorkerStep(s: State, e: Event, k: nat)
    requires Leaving(s, k) && e.WorkerStep?
    requires s.worker.Lower? ==> k >= ROUND
    ensures Leaving(Next(s, e), StepsSinceRaise(s, e, k))
  {
    hide Invariant;
    StepKeepsInvariant(s, e);
    EndPoints(s, e.metadata, e.result);
    if s.reporter == Done {
      InvariantAligned(s);
      LeftStep(s, e);
    }
    ReporterPresent(s);
    hide WorkerNext, ReporterNext;
  }

  lemma ReporterPresent(s: State)
    requires Invariant(s)
    ensures s.worker.Raise? || s.worker.Lower? ==> !s.reporter.Absent? && HasEntry(s)
  {
  }

  lemma OtherStep(s: State, e: Event, k: nat)
    requires Leaving(s, k) && !e.WorkerStep?
    ensures Leaving(Next(s, e), StepsSinceRaise(s, e, k))
  {
    hide Invariant;
    StepKeepsInvariant(s, e);
    if s.worker.Lower? {
      StoppedStep(s, e);
    } else if s.reporter == Done {
      InvariantAligned(s);
      LeftStep(s, e);
    }
    WorkerRests(s, e);
    hide Next;
  }

  lemma WorkerRests(s: State, e: Event)
    requires !e.WorkerStep?
    ensures var s' := Next(s, e); s'.worker == s.worker && s'.metadata == s.metadata
  {
  }

  lemma {:induction false} RunKeepsLeaving(s: State, events: seq<Event>, k: nat) returns (k': nat)
    requires Leaving(s, k) && Windowed(s, events, k)
    ensures Leaving(Run(s, events), k')
    decreases events
  {
    hide Next, Leaving, StepsSinceRaise;
    if events == [] {
      k' := k;
    } else {
      var e := events[0];
      if e.WorkerStep? {
        LeavingWorkerStep(s, e, k);
      } else {
        OtherStep(s, e, k);
      }
      k' := RunKeepsLeaving(Next(s, e), events[1..], StepsSinceRaise(s, e, k));
    }
  }

  lemma InitialLeaving()
    ensures Leaving(Initial(), 0)
  {
    hide Invariant;
    InitialInvariant();
  }

  /** Every join finds its reporter gone: over every run in which the reporter's iteration fits into the
      time the flag stays raised, the reporter has left whenever the worker is about to join it. */
  lemma JoinNeverBlocks(events: seq<Event>)
    requires Windowed(Initial(), events, 0)
    ensures Run(Initial(), events).worker.Join? ==> Run(Initial(), events).reporter == Done
  {
    hide *;
    InitialLeaving();
    var k := RunKeepsLeaving(Initial(), events, 0);
    GoneAtJoin(Run(Initial(), events), k);
  }

  lemma GoneAtJoin(s: State, k: nat)
    requires Leaving(s, k)
    ensures s.worker.Join? ==> s.reporter == Done
  {
    hide Invariant;
  }

  // ----- the worker's program ends

  /** Steps the worker needs at most until it waits for the next action: six for every stage that is
      left, and a constant. */
  function StepsToWaiting(m: Metadata, w: Worker): nat {
    match w
    case PushResult => 14 + 6 * m.stages
    case PushProgress => 13 + 6 * m.stages
    case Spawn => 12 + 6 * m.stages
    case StageCheck(i) => 8 + 6 * Left(m, i)
    case StageExecute(i) => 7 + 6 * Left(m, i)
    case StageWait(i) => 6 + 6 * Left(m, i)
    case UpdateCheck(i) => 5 + 6 * Left(m, i)
    case UpdateProgress(i) => 4 + 6 * Left(m, i)
    case UpdateResult(i) => 3 + 6 * Left(m, i)
    case ScriptCheck => 11
    case ScriptExecute => 10
    case FailResult => 9
    case ScriptResult(_) => 9
    case FailStop => 8
    case ScriptProgress => 8
    case Raise => 7
    case Lower => 6
    case Clear => 5
    case FinalCheck => 4
    case FinalUnknown => 3
    case Join => 2
    case Finish => 1
    case _ => 0
  }

  function Left(m: Metadata, i: nat): nat {
    if i < m.stages then m.stages - i else 0
  }

  /** Likewise at the points that concern the queue, the vectors or the reporter. */
  lemma GlobalAdvances(s: State, m: Metadata)
    requires Aligned(s) && !Idle(s.worker) && !LocalPoint(s.worker)
    requires s.worker.Join? ==> s.reporter == Done
    ensures s.metadata != [] && GlobalNext(s, m).metadata == s.metadata
    ensures GlobalNext(s, m).worker.Waiting?
         || (!Idle(GlobalNext(s, m).worker)
             && StepsToWaiting(Last(s.metadata), GlobalNext(s, m).worker)
                < StepsToWaiting(Last(s.metadata), s.worker))
  {
    if s.worker.Spawn? {
      FirstAdvances(Last(s.metadata));
      hide FirstStep, StepsToWaiting;
    } else {
      hide FirstStep;
    }
  }

  lemma FirstAdvances(m: Metadata)
    ensures !Idle(FirstStep(m)) && StepsToWaiting(m, FirstStep(m)) < StepsToWaiting(m, Spawn)
  {
  }

  /** Every step of the worker on an action brings it closer to the end, provided its reporter has left
      when it joins it. */
  lemma WorkerAdvances(s: State, m: Metadata, answer: Result)
    requires Invariant(s) && !Idle(s.worker)
    requires s.worker.Join? ==> s.reporter == Done
    ensures HasMetadata(s) && WorkerNext(s, m, answer).metadata == s.metadata
    ensures WorkerNext(s, m, answer).worker.Waiting?
         || (!Idle(WorkerNext(s, m, answer).worker)
             && StepsToWaiting(Last(s.metadata), WorkerNext(s, m, answer).worker)
                < StepsToWaiting(Last(s.metadata), s.worker))
  {
    hide Honest, Monotone, Measured, Percent;
    if HasEntry(s) && LocalPoint(s.worker) {
      LocalAdvances(Last(s.metadata), View(s), answer);
      LocalStaysLocal(Last(s.metadata), View(s), answer);
      hide LocalNext, OutcomeAt, StepsToWaiting;
    } else {
      hide OutcomeAt, LocalNext, Known;
      GlobalAdvances(s, m);
      assert WorkerNext(s, m, answer) == GlobalNext(s, m);
      hide GlobalNext, StepsToWaiting, WorkerNext;
    }
  }

  predicate HasMetadata(s: State) {
    s.metadata != []
  }

  /** The loop over the stages and its failure. */
  predicate InStages(w: Worker) {
    || w.StageCheck? || w.StageExecute? || w.StageWait? || w.UpdateCheck? || w.UpdateProgress? || w.UpdateResult?
    || w.FailResult? || w.FailStop?
  }

  lemma StageAdvances(m: Metadata, l: Local, answer: Result)
    requires InStages(l.worker) && AtPoint(m, l)
    ensures StepsToWaiting(m, LocalNext(m, l, answer).worker) < StepsToWaiting(m, l.worker)
  {
    hide Measured, Ended, Settled, ScriptReturned, StageFailed, InOrder, AllSuccess, PrefixRun;
  }

  lemma EndAdvances(m: Metadata, l: Local, answer: Result)
    requires LocalPoint(l.worker) && !InStages(l.worker)
    ensures StepsToWaiting(m, LocalNext(m, l, answer).worker) < StepsToWaiting(m, l.worker)
  {
  }

  lemma LocalAdvances(m: Metadata, l: Local, answer: Result)
    requires LocalPoint(l.worker) && AtPoint(m, l)
    ensures StepsToWaiting(m, LocalNext(m, l, answer).worker) < StepsToWaiting(m, l.worker)
  {
    hide AtPoint, LocalNext, StepsToWaiting;
    if InStages(l.worker) {
      StageAdvances(m, l, answer);
    } else {
      EndAdvances(m, l, answer);
    }
  }

  function WorkerSteps(events: seq<Event>): nat {
    if events == [] then 0 else (if events[0].WorkerStep? then 1 else 0) + WorkerSteps(events[1..])
  }

  /** From any point of an action: as many worker steps as the bound says bring the worker back to
      waiting, whatever the other parties do in between. */
  lemma {:induction false} ActionEnds(s: State, events: seq<Event>, k: nat) returns (n: nat)
    requires Leaving(s, k) && Windowed(s, events, k)
    requires !Idle(s.worker) && s.metadata != []
    requires WorkerSteps(events) >= StepsToWaiting(Last(s.metadata), s.worker)
    ensures n <= |events| && Run(s, events[..n]).worker.Waiting?
    ensures Run(s, events[..n]).metadata == s.metadata
    decreases events
  {
    hide Next, Leaving, StepsSinceRaise, Invariant, StepsToWaiting, Idle;
    StillToGo(Last(s.metadata), s.worker);
    var e, rest := events[0], events[1..];
    var s' := Next(s, e);
    EndStep(s, e, k);
    if s'.worker.Waiting? {
      n := 1;
      assert events[..1] == [e];
      OneStep(s, e);
    } else {
      var n' := ActionEnds(s', rest, StepsSinceRaise(s, e, k));
      n := n' + 1;
      assert events[..n] == [e] + rest[..n'];
      assert events[..n][1..] == rest[..n'];
    }
  }

  lemma OneStep(s: State, e: Event)
    ensures Run(s, [e]) == Next(s, e)
  {
    hide Next;
    assert [e][1..] == [];
    assert Run(Next(s, e), []) == Next(s, e);
  }

  lemma StillToGo(m: Metadata, w: Worker)
    requires !Idle(w)
    ensures StepsToWaiting(m, w) > 0
  {
  }

  lemma EndStep(s: State, e: Event, k: nat)
    requires Leaving(s, k) && !Idle(s.worker) && s.metadata != []
    requires s.worker.Lower? && e.WorkerStep? ==> k >= ROUND
    ensures var s' := Next(s, e);
            && Leaving(s', StepsSinceRaise(s, e, k))
            && s'.metadata == s.metadata
            && (s'.worker.Waiting? || !Idle(s'.worker))
            && (!s'.worker.Waiting? ==>
                  StepsToWaiting(Last(s.metadata), s'.worker) + (if e.WorkerStep? then 1 else 0)
                  <= StepsToWaiting(Last(s.metadata), s.worker))
  {
    hide StepsToWaiting, Invariant;
    if e.WorkerStep? {
      LeavingWorkerStep(s, e, k);
      WorkerAdvances(s, e.metadata, e.result);
    } else {
      OtherStep(s, e, k);
      WorkerRests(s, e);
    }
    hide WorkerNext, ReporterNext, Leaving, Idle;
  }

  /** Every fetched action ends: on every run in which the reporter's iteration fits into the time the
      flag stays raised, an action that has been registered (without stages, failed, cancelled, a script
      or successful) lets the worker return to waiting within six steps for every stage and fourteen
      more, before anything else is fetched. */
  lemma EveryActionEnds(before: seq<Event>, after: seq<Event>) returns (n: nat)
    requires Windowed(Initial(), before + after, 0)
    requires Run(Initial(), before).worker.PushResult? && Run(Initial(), before).metadata != []
    requires WorkerSteps(after) >= 14 + 6 * Last(Run(Initial(), before).metadata).stages
    ensures n <= |after|
    ensures Run(Run(Initial(), before), after[..n]).worker.Waiting?
    ensures Run(Run(Initial(), before), after[..n]).metadata == Run(Initial(), before).metadata
  {
    hide *;
    InitialLeaving();
    var k := WindowedSplit(Initial(), before, after, 0);
    n := RegisteredActionEnds(Run(Initial(), before), after, k);
  }

  lemma RegisteredActionEnds(s: State, events: seq<Event>, k: nat) returns (n: nat)
    requires Leaving(s, k) && Windowed(s, events, k)
    requires s.worker.PushResult? && s.metadata != []
    requires WorkerSteps(events) >= 14 + 6 * Last(s.metadata).stages
    ensures n <= |events| && Run(s, events[..n]).worker.Waiting?
    ensures Run(s, events[..n]).metadata == s.metadata
  {
    hide Run, Windowed, Leaving, WorkerSteps;
    n := ActionEnds(s, events, k);
  }

  lemma {:induction false} WindowedSplit(s: State, before: seq<Event>, after: seq<Event>, k: nat) returns (k': nat)
    requires Leaving(s, k) && Windowed(s, before + after, k)
    ensures Leaving(Run(s, before), k') && Windowed(Run(s, before), after, k')
    decreases before
  {
    hide Next, Leaving, StepsSinceRaise;
    if before == [] {
      assert before + after == after;
      k' := k;
    } else {
      var e := before[0];
      assert (before + after)[0] == e && (before + after)[1..] == before[1..] + after;
      if e.WorkerStep? {
        LeavingWorkerStep(s, e, k);
      } else {
        OtherStep(s, e, k);
      }
      k' := WindowedSplit(Next(s, e), before[1..], after, StepsSinceRaise(s, e, k));
    }
  }
}
