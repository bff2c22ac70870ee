/** The custom action handler as the object it is. The atomic steps of its threads and callbacks
    update the fields in place and keep the invariant of module ActionSafety; the stage loop is also
    given as one piece, with a single cancellation arriving at any of its reads of the stop flag. */
module CustomActionHandler {
  import opened ActionProtocol
  import opened ActionSafety
  import opened ActionJoin

  function Min(x: nat, y: nat): nat {
    if x < y then x else y
  }

  predicate Succeeded(answers: seq<Result>) {
    forall i :: 0 <= i < |answers| ==> answers[i] == Success
  }

  lemma LocalStepMeaning(m: Metadata, l: Local, answer: Result)
    requires LocalPoint(l.worker) && AtPoint(m, l)
    ensures var l' := LocalNext(m, l, answer);
            && AtPoint(m, l')
            && l.progress <= l'.progress
            && (Final(m, l.returned) ==> l'.returned == l.returned)
            && StepsToWaiting(m, l'.worker) < StepsToWaiting(m, l.worker)
  {
    hide AtPoint, LocalNext, Final, StepsToWaiting, LocalPoint;
    LocalKeepsPoint(m, l, answer);
    LocalProgressGrows(m, l, answer);
    LocalAdvances(m, l, answer);
    if Final(m, l.returned) {
      LocalFinalStays(m, l, answer);
    }
  }

  class CustomActionHandler {
    var stopped: bool
    var newAction: bool
    var actions: seq<int>
    var metadata: seq<Metadata>
    var results: seq<Result>
    var progress: seq<real>
    var worker: Worker
    var arrival: Arrival
    var reporter: Reporter
    var reporterEntry: nat
    var reporterId: int
    var fetched: seq<int>
    var returned: seq<seq<Execution>>
    var acknowledged: nat
    var sawStop: bool
    var sent: seq<Response>

    function Contents(): State
      reads this
    {
      State(stopped, newAction, actions, metadata, results, progress, worker, arrival, reporter, reporterEntry,
            reporterId, fetched, returned, acknowledged, sawStop, sent)
    }

    constructor ()
      ensures Contents() == Initial()
      ensures Invariant(Contents())
    {
      stopped, newAction, actions := false, false, [];
      metadata, results, progress := [], [], [];
      worker, arrival, reporter, reporterEntry, reporterId := Waiting, NoArrival, Absent, 0, 0;
      fetched, returned, acknowledged, sawStop, sent := [], [], 0, false, [];
      new;
      InitialInvariant();
    }

    method CancellationCallback()
      requires Invariant(Contents())
      modifies this
      ensures Contents() == Next(old(Contents()), Cancel)
      ensures Invariant(Contents())
    {
      StepKeepsInvariant(Contents(), Cancel);
      hide Invariant;
      stopped := true;
    }

    /** A new action comes in; `spaced` says that the last one came at least 1.5 s earlier. */
    method ActionCallback(id: int, spaced: bool)
      requires Invariant(Contents())
      modifies this
      ensures Contents() == Next(old(Contents()), Arrive(id, spaced))
      ensures Invariant(Contents())
    {
      StepKeepsInvariant(Contents(), Arrive(id, spaced));
      hide Invariant;
      if arrival == NoArrival {
        if actions != [] {
          arrival := Compare(id, spaced);
        } else if spaced {
          arrival := Append(id);
        }
      }
    }

    /** One further step of that callback. */
    method ActionCallbackStep()
      requires Invariant(Contents())
      modifies this
      ensures Contents() == Next(old(Contents()), ArrivalStep)
      ensures Invariant(Contents())
    {
      StepKeepsInvariant(Contents(), ArrivalStep);
      hide Invariant;
      match arrival {
        case Compare(id, spaced) =>
          if actions == [] {
            arrival := ArrivalFault;
          } else if actions[|actions| - 1] != id && spaced {
            arrival := Append(id);
          } else {
            arrival := NoArrival;
          }
        case Append(id) =>
          actions := actions + [id];
          arrival := Announce;
        case Announce =>
          newAction := true;
          arrival := NoArrival;
        case _ =>
      }
    }

    /** One step of the worker thread; `m` is the metadata found for a new action and `answer` what the
        external call of the step returned. */
    method ProcessCustomActionStep(m: Metadata, answer: Result)
      requires Invariant(Contents())
      modifies this
      ensures Contents() == Next(old(Contents()), WorkerStep(m, answer))
      ensures Invariant(Contents())
    {
      StepKeepsInvariant(Contents(), WorkerStep(m, answer));
      hide Invariant, LocalNext, Store, View, GlobalNext;
      if worker.Waiting? || worker.Fetch? || worker.WorkerFault? {
        NewActionCheckStep();
      } else if worker.PushMetadata? || Pushing(worker) || worker.Spawn? {
        StartCustomActionStep(m);
      } else if worker.Clear? || worker.Join? || worker.Finish? {
        CloseCustomActionStep();
      } else if HasEntry(Contents()) {
        ExecuteCustomActionStep(answer);
      }
    }

    /** Looking for a new action. */
    method NewActionCheckStep()
      requires worker.Waiting? || worker.Fetch? || worker.WorkerFault?
      modifies `worker
      ensures forall m :: Contents() == GlobalNext(old(Contents()), m)
    {
      match worker {
        case Waiting =>
          if newAction {
            worker := Fetch;
          }
        case Fetch =>
          if actions != [] {
            worker := PushMetadata(Last(actions));
          } else {
            worker := WorkerFault;
          }
        case WorkerFault =>
      }
    }

    /** Registering the action and starting its reporter. */
    method StartCustomActionStep(m: Metadata)
      requires worker.PushMetadata? || Pushing(worker) || worker.Spawn?
      modifies this
      ensures Contents() == GlobalNext(old(Contents()), m)
    {
      hide FirstStep;
      match worker {
        case PushMetadata(id) =>
          metadata, returned, fetched := metadata + [m], returned + [[]], fetched + [id];
          acknowledged, sawStop, worker := 0, false, PushResult;
        case PushResult =>
          results := results + [InProgress];
          worker := PushProgress;
        case PushProgress =>
          progress := progress + [0.0];
          worker := Spawn;
        case Spawn =>
          StartReporterStep();
      }
    }

    /** The reporter is given the number of the last queued action. */
    method StartReporterStep()
      requires worker.Spawn?
      modifies this
      ensures forall m :: Contents() == GlobalNext(old(Contents()), m)
    {
      hide FirstStep;
      if metadata != [] && actions != [] {
        reporter, reporterEntry, reporterId := CheckStop, |metadata| - 1, Last(actions);
        worker := FirstStep(Last(metadata));
      } else {
        worker := WorkerFault;
      }
    }

    /** Forgetting the queue and joining the reporter. */
    method CloseCustomActionStep()
      requires worker.Clear? || worker.Join? || worker.Finish?
      modifies this
      ensures forall m :: Contents() == GlobalNext(old(Contents()), m)
    {
      match worker {
        case Clear =>
          actions := [];
          worker := FinalCheck;
        case Join =>
          if reporter == Done {
            reporter := Absent;
            worker := Finish;
          }
        case Finish =>
          newAction := false;
          worker := Waiting;
      }
    }

    /** One step of the worker within the action being executed: the step is computed on copies of
        the last entries and written back. */
    method ExecuteCustomActionStep(answer: Result)
      requires HasEntry(Contents())
      modifies `worker, `stopped, `results, `progress, `returned, `acknowledged, `sawStop
      ensures Contents() == Store(old(Contents()),
                                  LocalNext(Last(old(metadata)), View(old(Contents())), answer))
    {
      hide LocalNext;
      var l := LocalStep(Last(metadata), View(Contents()), answer);
      worker, stopped, acknowledged, sawStop := l.worker, l.stopped, l.acknowledged, l.sawStop;
      results := SetLast(results, l.result);
      progress := SetLast(progress, l.progress);
      returned := SetLast(returned, l.returned);
    }

    /** One step of the worker within an action. From a point of its program that is consistent with
        what was executed so far it leads to another such point, closer to the end; the progress never
        decreases, and nothing more is executed once everything was executed or something has failed. */
    static method LocalStep(m: Metadata, before: Local, answer: Result) returns (l: Local)
      ensures l == LocalNext(m, before, answer)
      ensures LocalPoint(before.worker) && AtPoint(m, before) ==>
                && AtPoint(m, l)
                && before.progress <= l.progress
                && (Final(m, before.returned) ==> l.returned == before.returned)
                && StepsToWaiting(m, l.worker) < StepsToWaiting(m, before.worker)
    {
      hide LocalNext, AtPoint, StepsToWaiting, Final;
      if InStages(before.worker) {
        l := StageStep(m, before, answer);
      } else {
        l := ScriptOrEndStep(m, before, answer);
      }
      if LocalPoint(before.worker) && AtPoint(m, before) {
        LocalStepMeaning(m, before, answer);
      }
    }

    /** A step of the loop over the stages. */
    static method StageStep(m: Metadata, before: Local, answer: Result) returns (l: Local)
      requires InStages(before.worker)
      ensures l == LocalNext(m, before, answer)
    {
      l := before;
      match before.worker {
        case StageCheck(i) =>
          if i >= m.stages {
            l := l.(worker := Raise);
          } else if l.stopped {
            l := l.(worker := StageCheck(i + 1));
          } else {
            l := l.(worker := StageExecute(i));
          }
        case StageExecute(i) =>
          l := l.(returned := l.returned + [Execution(i, answer)]);
          if answer != Success {
            l := l.(worker := FailResult);
          } else {
            l := l.(worker := StageWait(i));
          }
        case StageWait(i) => l := l.(worker := UpdateCheck(i));
        case UpdateCheck(i) => l := l.(worker := if l.stopped then StageCheck(i + 1) else UpdateProgress(i));
        case UpdateProgress(i) =>
          if m.stages > 0 {
            l := l.(progress := Percent(i + 1, m.stages), acknowledged := l.acknowledged + 1);
            l := l.(worker := UpdateResult(i));
          }
        case UpdateResult(i) =>
          l := l.(result := if l.progress != 100.0 then InProgress else Success);
          l := l.(worker := StageCheck(i + 1));
        case FailResult => l := l.(worker := FailStop, result := Error);
        case FailStop => l := l.(worker := Raise, stopped := true);
      }
    }

    /** A step of the global script or of what follows the execution. */
    static method ScriptOrEndStep(m: Metadata, before: Local, answer: Result) returns (l: Local)
      requires !InStages(before.worker)
      ensures l == LocalNext(m, before, answer)
    {
      l := before;
      match before.worker {
        case ScriptCheck =>
          l := l.(sawStop := l.stopped);
          if l.stopped || m.completeCondition.OtherCondition? {
            l := l.(worker := ScriptResult(Unknown));
          } else {
            l := l.(worker := ScriptExecute);
          }
        case ScriptExecute => l := l.(worker := ScriptResult(answer), returned := l.returned + [Execution(0, answer)]);
        case ScriptResult(r) => l := l.(worker := ScriptProgress, result := r);
        case ScriptProgress =>
          if l.result == Success {
            l := l.(progress := 100.0, acknowledged := 1);
          }
          l := l.(worker := Raise);
        case Raise => l := l.(worker := Lower, stopped := true);
        case Lower => l := l.(worker := Clear, stopped := false);
        case FinalCheck => l := l.(worker := if l.progress == 100.0 && l.result == Success then FinalUnknown else Join);
        case FinalUnknown => l := l.(worker := Join, result := Unknown);
        case _ =>
      }
    }

    /** One step of the reporter thread. */
    method SendProgressStatusStep()
      requires Invariant(Contents()) && HasEntry(Contents())
      modifies this
      ensures Contents() == Next(old(Contents()), ReporterStep)
      ensures Invariant(Contents())
    {
      StepKeepsInvariant(Contents(), ReporterStep);
      hide Invariant;
      match reporter {
        case Absent =>
        case Done =>
        case CheckStop => reporter := if stopped then Done else CheckResult;
        case CheckResult => reporter := if Last(results) == Unknown then Done else ReadProgress;
        case ReadProgress => reporter := ReadResult(Last(progress), acknowledged);
        case ReadResult(p, n) => reporter := Send(p, n, Last(results));
        case Send(p, n, r) =>
          sent := sent + [Response(reporterEntry, p, n, r, reporterId)];
          reporter := Sleep;
        case Sleep => reporter := CheckStop;
      }
    }

    /** Progress after stage `i`, unless the action has been stopped. */
    method UpdateActionProgressFromStage(i: nat, stages: nat)
      requires i < stages
      requires progress != [] && results != []
      modifies `progress, `results
      ensures stopped ==> progress == old(progress) && results == old(results)
      ensures !stopped ==> progress == SetLast(old(progress), Percent(i + 1, stages))
      ensures !stopped ==> results == SetLast(old(results), if i + 1 == stages then Success else InProgress)
    {
      if !stopped {
        progress := SetLast(progress, Percent(i + 1, stages));
        PercentOrder(i + 1, i + 1, stages);
        if Last(progress) != 100.0 {
          results := SetLast(results, InProgress);
        } else {
          results := SetLast(results, Success);
        }
      }
    }

    /** The stage loop, with the stop flag seen raised from read number `cancelAt` on (the loop reads
        it twice per stage: before executing the stage and before acknowledging it). The stages
        executed are those whose first read comes before the cancellation, up to the first failure;
        those acknowledged are the ones whose second read does. */
    method ExecuteStages(answers: seq<Result>, cancelAt: nat) returns (executed: seq<Result>)
      requires progress != [] && results != []
      requires answers != [] && !stopped
      requires Last(progress) == 0.0 && Last(results) == InProgress
      modifies `stopped, `progress, `results
      ensures |progress| == old(|progress|) && |results| == old(|results|)
      ensures progress[..|progress| - 1] == old(progress[..|progress| - 1])
      ensures results[..|results| - 1] == old(results[..|results| - 1])
      ensures var n, e := |answers|, Min(|answers|, (cancelAt + 1) / 2);
              if Succeeded(answers[..e]) then
                && executed == answers[..e]
                && Last(progress) == Percent(Min(n, cancelAt / 2), n)
                && Last(results) == (if cancelAt >= 2 * n then Success else InProgress)
              else
                && |executed| > 0
                && |executed| <= e && executed == answers[..|executed|]
                && Succeeded(executed[..|executed| - 1]) && Last(executed) != Success
                && stopped
                && Last(progress) == Percent(|executed| - 1, n)
                && Last(results) == Error
    {
      executed := [];
      PercentOrder(0, 0, |answers|);
      var i := 0;
      while i < |answers|
        invariant 0 <= i <= |answers|
        invariant |progress| == old(|progress|) && |results| == old(|results|)
        invariant progress[..|progress| - 1] == old(progress[..|progress| - 1])
        invariant results[..|results| - 1] == old(results[..|results| - 1])
        invariant executed == answers[..Min(i, (cancelAt + 1) / 2)]
        invariant Succeeded(executed)
        invariant stopped ==> cancelAt < 2 * i
        invariant Last(progress) == Percent(Min(i, cancelAt / 2), |answers|)
        invariant Last(results) ==
                  (if i == |answers| && cancelAt >= 2 * |answers| then Success else InProgress)
      {
        if cancelAt <= 2 * i {
          stopped := true;
        }
        if !stopped {
          executed := executed + [answers[i]];
          assert executed == answers[..i + 1];
          if answers[i] != Success {
            results := SetLast(results, Error);
            stopped := true;
            assert executed[..|executed| - 1] == answers[..i];
            assert answers[..Min(|answers|, (cancelAt + 1) / 2)][i] != Success;
            return;
          }
          if cancelAt <= 2 * i + 1 {
            stopped := true;
          }
          UpdateActionProgressFromStage(i, |answers|);
        }
        i := i + 1;
      }
    }
  }
}
