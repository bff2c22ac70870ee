/** Errors in the responses to the autopilot: sent only for actions that failed, and never taken back. */
module ActionErrors {
  import opened ActionOutcomes
  import opened ActionProtocol
  import opened ActionReports
  import opened ActionSafety
  import opened ActionTheorems

  /** A stage of the action failed, or its script said error. */
  predicate ErrorRecord(m: Metadata, returned: seq<Execution>) {
    if m.stages > 0 then Failed(returned) else |returned| == 1 && returned[0].result == Error
  }

  /** Every result that says error stands for a failure. */
  predicate ErrorsFailed(s: State) {
    && |s.returned| == |s.metadata| >= |s.results|
    && forall k :: 0 <= k < |s.results| && s.results[k] == Error ==> ErrorRecord(s.metadata[k], s.returned[k])
  }

  /** Once error has been sent for an action its result is error, and everything sent later for it says so. */
  predicate ErrorsKept(s: State) {
    && (forall i :: 0 <= i < |s.sent| && s.sent[i].result == Error ==>
          s.sent[i].entry < |s.results| && s.results[s.sent[i].entry] == Error)
    && (forall i, j :: 0 <= i < j < |s.sent| && s.sent[i].entry == s.sent[j].entry && s.sent[i].result == Error ==>
          s.sent[j].result == Error)
    && (s.reporter.Send? ==>
          && s.results != []
          && s.reporterEntry == |s.results| - 1
          && (s.reporter.result == Error ==> Last(s.results) == Error)
          && (forall i :: 0 <= i < |s.sent| && s.sent[i].entry == s.reporterEntry && s.sent[i].result == Error ==>
                s.reporter.result == Error))
  }

  lemma PointError(m: Metadata, l: Local)
    requires AtPoint(m, l) && l.result == Error && !Pushing(l.worker)
    ensures ErrorRecord(m, l.returned)
  {
    hide Percent, Complete, InOrder, AllSuccess;
  }

  lemma LocalErrorStays(m: Metadata, l: Local, answer: Result)
    requires LocalPoint(l.worker) && AtPoint(m, l) && l.result == Error
    ensures LocalNext(m, l, answer).result == Error
  {
    hide Measured, Complete, InOrder, AllSuccess;
  }

  /** What a step does to the results: the last one may change, but never away from error, and one more
      may be added. */
  lemma ResultsFrame(s: State, e: Event)
    requires Invariant(s)
    ensures var s' := Next(s, e);
            && (s'.results == s.results
                || (s.worker.PushResult? && s'.results == s.results + [InProgress])
                || (Ready(s) && |s'.results| == |s.results|
                    && forall k :: 0 <= k < |s.results| - 1 ==> s'.results[k] == s.results[k]))
            && (forall k :: 0 <= k < |s.results| && s.results[k] == Error ==> s'.results[k] == Error)
  {
    hide Honest, Monotone, OutcomeAt, Measured;
    NextCases(s, e);
    match e {
      case WorkerStep(m, r) =>
        if LocalPoint(s.worker) {
          LocalPointsDiffer(s.worker);
          if HasEntry(s) {
            if Last(s.results) == Error {
              LocalErrorStays(Last(s.metadata), View(s), r);
            }
            hide LocalNext, GlobalNext;
          }
        } else {
          assert WorkerNext(s, m, r) == GlobalNext(s, m);
          hide WorkerNext, FirstStep;
        }
      case ReporterStep =>
        ReporterFrame(s);
        hide ReporterNext;
      case _ =>
        CallbackFrame(s, e);
        hide Next;
    }
  }

  /** In every state of a run a result that says error stands for a failure of its entry. */
  lemma LastErrorFailed(s: State)
    requires Invariant(s) && Ready(s) && Last(s.results) == Error
    ensures ErrorRecord(Last(s.metadata), Last(s.returned))
  {
    PointError(Last(s.metadata), View(s));
    hide AtPoint, Honest, Monotone;
  }

  lemma ErrorRecordIsFinal(m: Metadata, returned: seq<Execution>)
    requires ErrorRecord(m, returned)
    ensures Final(m, returned)
  {
  }

  lemma LocalStepReady(s: State, e: Event)
    requires Invariant(s) && Ready(s)
    ensures Next(s, e).results != s.results ==> Ready(Next(s, e)) || s.worker.PushResult?
  {
    NextCases(s, e);
    hide Known, Honest, Monotone;
    match e {
      case WorkerStep(m, r) =>
        if LocalPoint(s.worker) {
          LocalStaysLocal(Last(s.metadata), View(s), r);
          StoreView(s, LocalNext(Last(s.metadata), View(s), r));
          hide LocalNext, GlobalNext;
        } else {
          assert WorkerNext(s, m, r) == GlobalNext(s, m);
          hide WorkerNext, FirstStep;
        }
      case ReporterStep =>
        ReporterFrame(s);
        hide ReporterNext;
      case _ =>
        CallbackFrame(s, e);
        hide Next;
    }
  }

  /** An error that appears is the last result of the action being processed. */
  lemma NewError(s: State, e: Event, k: nat)
    requires Invariant(s)
    requires k < |Next(s, e).results| && Next(s, e).results[k] == Error
    requires k < |s.results| ==> s.results[k] != Error
    ensures Ready(Next(s, e)) && k == |Next(s, e).results| - 1
  {
    StepKeepsInvariant(s, e);
    ResultsFrame(s, e);
    LocalStepReady(s, e);
    hide Next, Known, Honest, Monotone;
  }

  /** Old errors keep their record, and a new one has one. */
  lemma ErrorsStayFailed(s: State, s': State)
    requires ErrorsFailed(s) && |s'.returned| == |s'.metadata| >= |s'.results|
    requires s.metadata <= s'.metadata
    requires forall k :: 0 <= k < |s.metadata| && Final(s.metadata[k], s.returned[k]) ==>
               s'.returned[k] == s.returned[k]
    requires forall k :: 0 <= k < |s'.results| && s'.results[k] == Error && !(k < |s.results| && s.results[k] == Error)
               ==> ErrorRecord(s'.metadata[k], s'.returned[k])
    ensures ErrorsFailed(s')
  {
    hide ErrorRecord, Final;
    forall k | 0 <= k < |s'.results| && s'.results[k] == Error
      ensures ErrorRecord(s'.metadata[k], s'.returned[k])
    {
      if k < |s.results| && s.results[k] == Error {
        ErrorRecordIsFinal(s.metadata[k], s.returned[k]);
      }
    }
  }

  lemma StepKeepsErrorsFailed(s: State, e: Event)
    requires Invariant(s) && ErrorsFailed(s)
    ensures ErrorsFailed(Next(s, e))
  {
    hide Next, Invariant, ErrorRecord, Final, ErrorsFailed;
    var s' := Next(s, e);
    StepKeepsInvariant(s, e);
    RecordsStay(s, e);
    Lengths(s);
    Lengths(s');
    forall k | 0 <= k < |s'.results| && s'.results[k] == Error && !(k < |s.results| && s.results[k] == Error)
      ensures ErrorRecord(s'.metadata[k], s'.returned[k])
    {
      NewError(s, e, k);
      LastErrorFailed(s');
    }
    ErrorsStayFailed(s, s');
  }

  lemma Lengths(s: State)
    requires Invariant(s)
    ensures |s.returned| == |s.metadata| >= |s.results|
    ensures Ready(s) ==> |s.results| == |s.metadata|
  {
  }

  lemma StepKeepsErrorsKept(s: State, e: Event)
    requires Invariant(s) && ErrorsKept(s)
    ensures ErrorsKept(Next(s, e))
  {
    var s' := Next(s, e);
    ResultsFrame(s, e);
    if e.ReporterStep? {
      NextCases(s, e);
      ReporterKeepsErrors(s);
      hide *;
    } else {
      InvariantAligned(s);
      OthersLeaveReports(s, e);
      if Held(s'.reporter) {
        HeldMeansRunning(s, e);
      }
      hide Next, ReporterNext, Invariant;
    }
  }

  lemma ReporterKeepsErrors(s: State)
    requires Invariant(s) && ErrorsKept(s)
    ensures ErrorsKept(ReporterNext(s))
  {
    InvariantAligned(s);
    ReporterMoves(s);
    ReporterFrame(s);
    hide ReporterNext, Invariant;
  }

  lemma HeldMeansRunning(s: State, e: Event)
    requires Invariant(s) && !e.ReporterStep? && Held(Next(s, e).reporter)
    ensures |Next(s, e).results| == |s.results|
  {
    StepKeepsInvariant(s, e);
    ResultsFrame(s, e);
    InvariantAligned(s);
    InvariantAligned(Next(s, e));
    OthersLeaveReports(s, e);
    hide Next, Known, Honest, Monotone;
  }

  lemma {:induction false} RunKeepsErrors(s: State, events: seq<Event>)
    requires Invariant(s) && ErrorsFailed(s) && ErrorsKept(s)
    ensures Invariant(Run(s, events)) && ErrorsFailed(Run(s, events)) && ErrorsKept(Run(s, events))
    decreases events
  {
    hide Invariant, ErrorsFailed, ErrorsKept, Next;
    if events != [] {
      StepKeepsInvariant(s, events[0]);
      StepKeepsErrorsFailed(s, events[0]);
      StepKeepsErrorsKept(s, events[0]);
      RunKeepsErrors(Next(s, events[0]), events[1..]);
    }
  }

  /** What a response that says error stands for, and what follows it. */
  predicate ErrorReports(s: State) {
    && (forall i :: 0 <= i < |s.sent| && s.sent[i].result == Error ==>
          && s.sent[i].entry < |s.metadata| == |s.returned|
          && ErrorRecord(s.metadata[s.sent[i].entry], s.returned[s.sent[i].entry]))
    && (forall i, j :: 0 <= i < j < |s.sent| && s.sent[i].entry == s.sent[j].entry && s.sent[i].result == Error ==>
          s.sent[j].result == Error)
  }

  /** Under every interleaving: error is sent only for an action of which a stage failed or whose script
      said error, and once it has been sent for an action no later response for it says anything else. */
  lemma ErrorsAreTrueAndFinal(events: seq<Event>)
    ensures ErrorReports(Run(Initial(), events))
  {
    hide *;
    InitialErrors();
    RunKeepsErrors(Initial(), events);
    ErrorsReported(Run(Initial(), events));
  }

  lemma InitialErrors()
    ensures Invariant(Initial()) && ErrorsFailed(Initial()) && ErrorsKept(Initial())
  {
    hide Invariant;
    InitialInvariant();
  }

  lemma ErrorsReported(s: State)
    requires ErrorsFailed(s) && ErrorsKept(s)
    ensures ErrorReports(s)
  {
    hide ErrorRecord;
  }

  // ----- an error is reported

  /** The only stage has failed, and the error has been recorded. */
  function FailedStage(m: Metadata): State {
    Spawned(m).(worker := FailStop, results := [Error], returned := [[Execution(0, Error)]])
  }

  lemma ReachesFailedStage(m: Metadata)
    requires m.stages == 1
    ensures Reaches(Initial(), FailedStage(m))
  {
    hide Run, Reaches, GlobalNext, ReporterNext;
    var w, s0 := WorkerStep(m, Error), Spawned(m);
    ReachesSpawned(m);
    ReachesStep(Initial(), s0, w);
    var s1 := s0.(worker := StageExecute(0));
    assert SetLast(s0.returned, []) == s0.returned && SetLast(s0.results, InProgress) == s0.results;
    assert SetLast(s0.progress, 0.0) == s0.progress;
    assert Next(s0, w) == s1;
    ReachesStep(Initial(), s1, w);
    var executed := [Execution(0, Error)];
    assert Last(s1.returned) + executed == executed;
    var s2 := s1.(worker := FailResult, returned := [executed]);
    assert Next(s1, w) == s2;
    ReachesStep(Initial(), s2, w);
    assert SetLast(s2.returned, executed) == s2.returned;
    assert Next(s2, w) == FailedStage(m);
  }

  /** The reporter that reads after the failure and before the worker raises the flag sends the error. */
  lemma ErrorIsSent(m: Metadata)
    requires m.stages == 1
    ensures exists s :: Reaches(Initial(), s) && s.sent == [Response(0, 0.0, 0, Error, 1)]
  {
    hide Run, Reaches, WorkerNext;
    var r, s0 := ReporterStep, FailedStage(m);
    ReachesFailedStage(m);
    ReachesStep(Initial(), s0, r);
    ReachesStep(Initial(), Next(s0, r), r);
    var s2 := s0.(reporter := ReadProgress);
    assert Next(Next(s0, r), r) == s2;
    ReachesStep(Initial(), s2, r);
    var s3 := s0.(reporter := ReadResult(0.0, 0));
    assert Next(s2, r) == s3;
    ReachesStep(Initial(), s3, r);
    var s4 := s0.(reporter := Send(0.0, 0, Error));
    assert Next(s3, r) == s4;
    ReachesStep(Initial(), s4, r);
    assert Next(s4, r).sent == [Response(0, 0.0, 0, Error, 1)];
  }
}
