/** Which events change the data the parties share, and what one party does when it is left alone. */
module ActionShared {
  import opened ActionProtocol
  import opened ActionSafety
  import opened ActionTheorems

  /** The event is a step of the worker from this point. */
  predicate WorkerAt(s: State, e: Event, w: Worker) {
    e.WorkerStep? && s.worker == w
  }

  /** What a step of the worker does to the shared data. */
  predicate WorkerShares(s: State, s': State) {
    && s'.stopped == (s.worker == FailStop || s.worker == Raise || (s.stopped && s.worker != Lower))
    && s'.newAction == (s.newAction && s.worker != Finish)
    && s'.actions == (if s.worker == Clear then [] else s.actions)
    && s'.arrival == s.arrival
  }

  lemma LocalFlag(m: Metadata, l: Local, answer: Result)
    requires LocalPoint(l.worker) && AtPoint(m, l)
    ensures LocalNext(m, l, answer).stopped
         == (l.worker == FailStop || l.worker == Raise || (l.stopped && l.worker != Lower))
  {
    hide AtPoint, Percent;
  }

  lemma GlobalShares(s: State, m: Metadata)
    requires !LocalPoint(s.worker)
    ensures WorkerShares(s, GlobalNext(s, m))
  {
    hide FirstStep;
  }

  lemma WorkerSharesRule(s: State, m: Metadata, answer: Result)
    requires Invariant(s)
    ensures WorkerShares(s, WorkerNext(s, m, answer))
  {
    hide AtPoint, Honest, Monotone, LocalNext, GlobalNext;
    if LocalPoint(s.worker) {
      LocalPointHasEntry(s);
      LocalFlag(Last(s.metadata), View(s), answer);
      hide Invariant;
    } else {
      GlobalShares(s, m);
      hide Invariant;
    }
  }

  lemma LocalPointHasEntry(s: State)
    requires Invariant(s) && LocalPoint(s.worker)
    ensures HasEntry(s) && AtPoint(Last(s.metadata), View(s))
  {
    hide AtPoint, Honest, Monotone;
  }

  /** The stop flag is raised by a cancellation, a failed stage and the end of an action, lowered after that
      end, and otherwise left alone. The queue is extended by an arrival and cleared by the worker after an
      action; an action is announced by an arrival and taken back by the worker when it is done. */
  lemma SharedDataRule(s: State, e: Event)
    requires Invariant(s)
    ensures var s' := Next(s, e);
            && s'.stopped == (e == Cancel || WorkerAt(s, e, FailStop) || WorkerAt(s, e, Raise)
                              || (s.stopped && !WorkerAt(s, e, Lower)))
            && s'.newAction == ((e == ArrivalStep && s.arrival == Announce)
                                || (s.newAction && !WorkerAt(s, e, Finish)))
            && s'.actions == (if e == ArrivalStep && s.arrival.Append? then s.actions + [s.arrival.id]
                              else if WorkerAt(s, e, Clear) then [] else s.actions)
  {
    NextCases(s, e);
    match e {
      case WorkerStep(m, r) => WorkerSharesRule(s, m, r);
      case ReporterStep => ReporterFrame(s);
      case _ =>
    }
    hide WorkerNext, ReporterNext, Invariant;
  }

  lemma RunFour(s: State, e: seq<Event>)
    requires |e| == 4
    ensures Run(s, e) == Next(Next(Next(Next(s, e[0]), e[1]), e[2]), e[3])
  {
    hide Next;
    RunAppend(s, e[..3], e[3]);
    RunAppend(s, e[..2], e[2]);
    RunAppend(s, e[..1], e[1]);
    RunAppend(s, [], e[0]);
    assert e[..3] + [e[3]] == e && e[..2] + [e[2]] == e[..3] && e[..1] + [e[1]] == e[..2] && [] + [e[0]] == e[..1];
  }

  /** An arrival that is left alone: its action is queued and announced exactly if it keeps the distance to
      the one before and does not repeat the last one in the queue; nothing else is changed. */
  lemma ArrivalAlone(s: State, id: int, spaced: bool)
    requires s.arrival == NoArrival
    ensures Run(s, [Arrive(id, spaced), ArrivalStep, ArrivalStep, ArrivalStep])
         == if spaced && (s.actions == [] || Last(s.actions) != id)
            then s.(actions := s.actions + [id], newAction := true)
            else s
  {
    RunFour(s, [Arrive(id, spaced), ArrivalStep, ArrivalStep, ArrivalStep]);
  }

  /** When the reporter leaves: exactly on a raised flag at its first look, or on the sentinel at its second. */
  lemma ReporterLeaves(s: State)
    requires Invariant(s)
    ensures ReporterNext(s).reporter == Done <==>
              || s.reporter == Done
              || (s.reporter == CheckStop && s.stopped)
              || (s.reporter == CheckResult && Last(s.results) == Unknown)
  {
    hide Known, Honest, Monotone;
  }

  lemma FourReads(s: State)
    requires HasEntry(s) && s.reporter == CheckStop && !s.stopped && Last(s.results) != Unknown
    ensures ReporterNext(ReporterNext(ReporterNext(ReporterNext(s))))
         == s.(reporter := Send(Last(s.progress), s.acknowledged, Last(s.results)))
  {
    assert ReporterNext(s) == s.(reporter := CheckResult);
    assert ReporterNext(s.(reporter := CheckResult)) == s.(reporter := ReadProgress);
    var held := s.(reporter := ReadResult(Last(s.progress), s.acknowledged));
    assert ReporterNext(s.(reporter := ReadProgress)) == held;
    assert ReporterNext(held) == held.(reporter := Send(Last(s.progress), s.acknowledged, Last(s.results)));
  }

  lemma RoundReads(s: State)
    requires HasEntry(s) && s.reporter == CheckStop && !s.stopped && Last(s.results) != Unknown
    ensures Run(s, [ReporterStep, ReporterStep, ReporterStep, ReporterStep])
         == s.(reporter := Send(Last(s.progress), s.acknowledged, Last(s.results)))
  {
    RunFour(s, [ReporterStep, ReporterStep, ReporterStep, ReporterStep]);
    FourReads(s);
    hide ReporterNext, WorkerNext, Run;
  }

  lemma RoundSends(s: State)
    requires HasEntry(s) && s.reporter.Send?
    ensures ReporterNext(ReporterNext(s)) == s.(reporter := CheckStop, sent := s.sent + [
              Response(s.reporterEntry, s.reporter.progress, s.reporter.seen, s.reporter.result, s.reporterId)])
  {
  }

  lemma RunningEntry(s: State)
    requires Invariant(s) && !s.reporter.Absent?
    ensures HasEntry(s) && s.reporterEntry == |s.metadata| - 1
  {
    InvariantAligned(s);
    hide Invariant;
  }

  /** A round of the reporter that is left alone, without flag and sentinel: one response with the present
      progress and result of its entry, and back to the start. */
  lemma ReporterRound(s: State)
    requires Invariant(s) && s.reporter == CheckStop && !s.stopped && HasEntry(s) && Last(s.results) != Unknown
    ensures Run(s, [ReporterStep, ReporterStep, ReporterStep, ReporterStep] + [ReporterStep] + [ReporterStep])
         == s.(sent := s.sent + [Response(|s.metadata| - 1, Last(s.progress), s.acknowledged,
                                          Last(s.results), s.reporterId)])
  {
    hide Invariant, Run, WorkerNext, ReporterNext;
    RunningEntry(s);
    var r, round := ReporterStep, [ReporterStep, ReporterStep, ReporterStep, ReporterStep];
    RoundReads(s);
    RunAppend(s, round, r);
    RunAppend(s, round + [r], r);
    RoundSends(s.(reporter := Send(Last(s.progress), s.acknowledged, Last(s.results))));
  }

  // ----- a new action

  lemma RunSix(s: State, e: seq<Event>)
    requires |e| == 6
    ensures Run(s, e) == Next(Next(Next(Next(Next(Next(s, e[0]), e[1]), e[2]), e[3]), e[4]), e[5])
  {
    hide Next;
    RunFour(s, e[..4]);
    RunAppend(s, e[..4], e[4]);
    RunAppend(s, e[..5], e[5]);
    assert e[..4] + [e[4]] == e[..5] && e[..5] + [e[5]] == e;
  }

  /** The action has been registered under the number, and its reporter started. */
  function Registered(s: State, m: Metadata, id: int): State {
    s.(metadata := s.metadata + [m], results := s.results + [InProgress], progress := s.progress + [0.0],
       returned := s.returned + [[]], fetched := s.fetched + [id], acknowledged := 0, sawStop := false,
       worker := FirstStep(m), reporter := CheckStop, reporterEntry := |s.metadata|, reporterId := id)
  }

  /** A waiting worker that is left alone: it registers the last queued action and starts its reporter as
      soon as an action is announced, and does nothing before. */
  lemma WorkerAlone(s: State, m: Metadata, answer: Result)
    requires s.worker == Waiting && s.actions != []
    ensures var w := WorkerStep(m, answer);
            Run(s, [w, w, w, w, w, w]) == if s.newAction then Registered(s, m, Last(s.actions)) else s
  {
    var w := WorkerStep(m, answer);
    RunSix(s, [w, w, w, w, w, w]);
    if s.newAction {
      WorkerRegisters(s, w);
    } else {
      assert Next(s, w) == s;
    }
    hide Next, Run;
  }

  lemma WorkerRegisters(s: State, w: Event)
    requires s.worker == Waiting && s.actions != [] && s.newAction && w.WorkerStep?
    ensures Next(Next(Next(Next(Next(Next(s, w), w), w), w), w), w)
         == Registered(s, w.metadata, Last(s.actions))
  {
    var id, m := Last(s.actions), w.metadata;
    var s1 := s.(worker := Fetch);
    assert Next(s, w) == s1;
    var s2 := s.(worker := PushMetadata(id));
    assert Next(s1, w) == s2;
    var s3 := s.(worker := PushResult, metadata := s.metadata + [m], returned := s.returned + [[]],
                 fetched := s.fetched + [id], acknowledged := 0, sawStop := false);
    assert Next(s2, w) == s3;
    var s4 := s3.(worker := PushProgress, results := s.results + [InProgress]);
    assert Next(s3, w) == s4;
    var s5 := s4.(worker := Spawn, progress := s.progress + [0.0]);
    assert Next(s4, w) == s5;
    assert Last(s5.metadata) == m;
    hide FirstStep;
    assert Next(s5, w) == Registered(s, m, id);
  }

  // ----- a cancelled action

  /** The worker is past its present piece of work and has not lowered the flag, or the action is over. */
  predicate Halting(s: State) {
    || (s.stopped && (s.worker.StageCheck? || s.worker.StageWait? || s.worker.UpdateCheck? || s.worker.ScriptCheck?
                      || s.worker.FailResult? || s.worker.FailStop? || s.worker.Raise? || s.worker.Lower?))
    || s.worker.Clear? || s.worker.FinalCheck? || s.worker.FinalUnknown? || s.worker.Join? || s.worker.Finish?
    || (s.worker.ScriptResult? && s.worker.result == Unknown && s.stopped)
    || (s.worker.ScriptProgress? && s.stopped && s.results != [] && Last(s.results) == Unknown)
  }

  /** Nothing more has been executed or acknowledged. */
  predicate SameWork(s: State, s': State) {
    s'.returned == s.returned && s'.acknowledged == s.acknowledged && s'.progress == s.progress
  }

  lemma LocalHalts(s: State, answer: Result)
    requires HasEntry(s) && LocalPoint(s.worker) && Halting(s)
    ensures var s' := Store(s, LocalNext(Last(s.metadata), View(s), answer));
            Halting(s') && SameWork(s, s')
  {
    var l := LocalNext(Last(s.metadata), View(s), answer);
    assert SetLast(s.returned, Last(s.returned)) == s.returned;
    assert SetLast(s.progress, Last(s.progress)) == s.progress;
    hide Percent;
  }

  lemma GlobalHalts(s: State, m: Metadata)
    requires !LocalPoint(s.worker) && Halting(s)
    ensures SameWork(s, GlobalNext(s, m)) && (Halting(GlobalNext(s, m)) || GlobalNext(s, m).worker.Waiting?)
  {
    hide FirstStep;
  }

  lemma WorkerHalts(s: State, m: Metadata, answer: Result)
    requires Invariant(s) && Halting(s)
    ensures var s' := WorkerNext(s, m, answer); SameWork(s, s') && (Halting(s') || s'.worker.Waiting?)
  {
    if LocalPoint(s.worker) {
      LocalPointHasEntry(s);
      LocalHalts(s, answer);
      hide LocalNext, GlobalNext, Halting, Invariant;
    } else {
      GlobalHalts(s, m);
      assert WorkerNext(s, m, answer) == GlobalNext(s, m);
      hide WorkerNext, GlobalNext, Halting, Invariant;
    }
  }

  lemma ReporterHalts(s: State)
    requires Halting(s)
    ensures SameWork(s, ReporterNext(s)) && Halting(ReporterNext(s))
  {
    ReporterFrame(s);
    hide ReporterNext;
  }

  lemma CallbackHalts(s: State, e: Event)
    requires Halting(s) && !e.WorkerStep? && !e.ReporterStep?
    ensures SameWork(s, Next(s, e)) && Halting(Next(s, e))
  {
    hide WorkerNext, ReporterNext;
  }

  lemma HaltingStep(s: State, e: Event)
    requires Invariant(s) && Halting(s)
    ensures SameWork(s, Next(s, e)) && (Halting(Next(s, e)) || Next(s, e).worker.Waiting?)
  {
    NextCases(s, e);
    match e {
      case WorkerStep(m, r) =>
        WorkerHalts(s, m, r);
        hide *;
      case ReporterStep =>
        ReporterHalts(s);
        hide *;
      case _ =>
        CallbackHalts(s, e);
        hide *;
    }
  }

  /** Over every run: from a raised flag on, once the piece of work under way is over, nothing more is
      executed or acknowledged before the worker waits for another action. */
  lemma {:induction false} CancelledActionStops(s: State, events: seq<Event>)
    requires Invariant(s) && Halting(s)
    ensures SameWork(s, Run(s, events)) || exists n :: 0 < n <= |events| && Run(s, events[..n]).worker.Waiting?
    decreases events
  {
    hide Invariant, Halting, Next, SameWork;
    if events == [] {
      SameWorkTransitive(s, s, s);
    } else {
      var t := Next(s, events[0]);
      HaltingStep(s, events[0]);
      StepKeepsInvariant(s, events[0]);
      PrefixShift(s, events);
      if t.worker.Waiting? {
        assert Run(s, events[..1]).worker.Waiting?;
      } else {
        CancelledActionStops(t, events[1..]);
        if SameWork(t, Run(t, events[1..])) {
          SameWorkTransitive(s, t, Run(t, events[1..]));
        } else {
          var n :| 0 < n <= |events[1..]| && Run(t, events[1..][..n]).worker.Waiting?;
          assert Run(s, events[..n + 1]).worker.Waiting?;
        }
      }
    }
  }

  lemma SameWorkTransitive(s: State, t: State, u: State)
    requires s == t || SameWork(s, t)
    requires t == u || SameWork(t, u)
    ensures SameWork(s, u)
  {
  }
}
