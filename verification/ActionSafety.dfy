/** Safety of the action protocol under every interleaving. */
module ActionSafety {
  import opened ActionProtocol

  /** Every stage was executed, in order, and returned success; or the one global script did. */
  predicate Complete(m: Metadata, returned: seq<Execution>) {
    |returned| == Units(m) && InOrder(returned) && AllSuccess(returned)
  }

  predicate InOrder(returned: seq<Execution>) {
    forall i :: 0 <= i < |returned| ==> returned[i].stage == i
  }

  predicate AllSuccess(returned: seq<Execution>) {
    forall i :: 0 <= i < |returned| ==> returned[i].result == Success
  }

  /** The stages that were executed are an in-order prefix of which only the last may have failed. */
  predicate PrefixRun(m: Metadata, returned: seq<Execution>) {
    && |returned| <= Units(m)
    && InOrder(returned)
    && (forall i :: 0 <= i < |returned| - 1 ==> returned[i].result == Success)
  }

  predicate Failed(returned: seq<Execution>) {
    returned != [] && Last(returned).result != Success
  }

  /** The progress is the share of acknowledged pieces of work. */
  predicate Measured(m: Metadata, l: Local) {
    l.acknowledged <= Units(m) && l.progress == Percent(l.acknowledged, Units(m))
  }

  /** The loop over the stages, with this many stages executed and acknowledged. */
  predicate InLoop(m: Metadata, l: Local, executed: nat, acknowledged: nat) {
    && acknowledged <= executed <= m.stages
    && m.stages > 0
    && |l.returned| == executed
    && InOrder(l.returned) && AllSuccess(l.returned)
    && l.acknowledged == acknowledged
  }

  predicate StageFailed(m: Metadata, l: Local) {
    && PrefixRun(m, l.returned)
    && m.stages > 0
    && Failed(l.returned)
    && l.acknowledged == |l.returned| - 1
  }

  predicate ScriptReturned(m: Metadata, l: Local, r: Result) {
    && m.stages == 0 && m.hasGlobalScript
    && l.acknowledged == 0
    && (l.returned == [Execution(0, r)] || (l.returned == [] && r == Unknown))
  }

  /** The action is a script that the worker was free to execute. */
  predicate MayRunScript(m: Metadata, sawStop: bool) {
    && m.stages == 0 && m.hasGlobalScript
    && (m.completeCondition.OnResultSuccess? || m.completeCondition.OnTimeout?)
    && !sawStop
  }

  /** A script was executed exactly if it could be; one that was not has an unknown result, and an action
      without stages and script is never given one. */
  predicate ScriptRule(m: Metadata, l: Local) {
    m.stages == 0 ==>
      && (|l.returned| == 1 <==> MayRunScript(m, l.sawStop))
      && (l.returned == [] ==> l.result == if m.hasGlobalScript then Unknown else InProgress)
  }

  /** The outcome once the execution is over: success exactly when all stages were acknowledged (or
      the script returned success), error exactly when a stage failed (or the script said so). */
  predicate Ended(m: Metadata, l: Local) {
    && PrefixRun(m, l.returned)
    && (l.result == Success <==> l.acknowledged == Units(m))
    && (l.result == Success ==> Complete(m, l.returned))
    && if m.stages > 0 then
         && (l.result == Error <==> Failed(l.returned))
         && (l.result == Success || l.result == Error || l.result == InProgress)
         && l.acknowledged <= |l.returned| <= l.acknowledged + 1
       else
         && (l.returned != [] ==> l.result == l.returned[0].result)
         && ScriptRule(m, l)
  }

  /** After the final check a success has become the sentinel that stops the reporter. */
  predicate Settled(m: Metadata, l: Local) {
    && PrefixRun(m, l.returned)
    && l.result != Success
    && (l.acknowledged == Units(m) ==> l.result == Unknown && Complete(m, l.returned))
    && if m.stages > 0 then
         && (l.result == Unknown <==> l.acknowledged == m.stages)
         && (l.result == Error <==> Failed(l.returned))
         && (l.result == Unknown || l.result == Error || l.result == InProgress)
         && l.acknowledged <= |l.returned| <= l.acknowledged + 1
       else
         && (l.acknowledged == 1 <==> l.returned == [Execution(0, Success)])
         && (l.acknowledged == 0 && l.returned != [] ==> l.result == l.returned[0].result)
         && ScriptRule(m, l)
  }

  /** What is known of the current action at each point of the worker's program. */
  predicate AtPoint(m: Metadata, l: Local) {
    && Measured(m, l)
    && OutcomeAt(m, l)
  }

  predicate OutcomeAt(m: Metadata, l: Local) {
    match l.worker
    case Spawn => l.returned == [] && l.result == InProgress && l.acknowledged == 0
    case StageCheck(i) =>
      && InLoop(m, l, |l.returned|, l.acknowledged)
      && |l.returned| <= i <= m.stages
      && |l.returned| <= l.acknowledged + 1
      && (!l.stopped ==> l.acknowledged == i)
      && l.result == if l.acknowledged == m.stages then Success else InProgress
    case StageExecute(i) => i < m.stages && InLoop(m, l, i, i) && l.result == InProgress
    case StageWait(i) => i < m.stages && InLoop(m, l, i + 1, i) && l.result == InProgress
    case UpdateCheck(i) => i < m.stages && InLoop(m, l, i + 1, i) && l.result == InProgress
    case UpdateProgress(i) => i < m.stages && InLoop(m, l, i + 1, i) && l.result == InProgress
    case UpdateResult(i) => i < m.stages && InLoop(m, l, i + 1, i + 1) && l.result == InProgress
    case FailResult => StageFailed(m, l) && l.result == InProgress
    case FailStop => StageFailed(m, l) && l.result == Error
    case ScriptCheck => ScriptReturned(m, l, Unknown) && l.returned == [] && l.result == InProgress
    case ScriptExecute =>
      ScriptReturned(m, l, Unknown) && l.returned == [] && l.result == InProgress && MayRunScript(m, l.sawStop)
    case ScriptResult(r) =>
      ScriptReturned(m, l, r) && l.result == InProgress && (|l.returned| == 1 <==> MayRunScript(m, l.sawStop))
    case ScriptProgress => ScriptReturned(m, l, l.result) && (|l.returned| == 1 <==> MayRunScript(m, l.sawStop))
    case Lower => Ended(m, l) && l.stopped
    case FinalUnknown => Ended(m, l) && l.result == Success
    case Raise => Ended(m, l)
    case Clear => Ended(m, l)
    case FinalCheck => Ended(m, l)
    case PushResult => true
    case PushProgress => true
    case _ => Settled(m, l)
  }

  lemma ExecuteKeepsPoint(m: Metadata, l: Local, answer: Result)
    requires l.worker.StageExecute? && AtPoint(m, l)
    ensures AtPoint(m, LocalNext(m, l, answer))
  {
    hide Percent;
    assert (l.returned + [Execution(l.worker.i, answer)])[..|l.returned|] == l.returned;
  }

  lemma UpdateKeepsPoint(m: Metadata, l: Local, answer: Result)
    requires l.worker.StageWait? || l.worker.UpdateCheck? || l.worker.UpdateProgress? || l.worker.UpdateResult?
    requires AtPoint(m, l)
    ensures AtPoint(m, LocalNext(m, l, answer))
  {
    PercentOrder(l.acknowledged, l.acknowledged, Units(m));
    hide Percent, Complete, PrefixRun, AllSuccess, InOrder;
  }

  lemma CheckKeepsPoint(m: Metadata, l: Local, answer: Result)
    requires l.worker.StageCheck? && AtPoint(m, l)
    ensures AtPoint(m, LocalNext(m, l, answer))
  {
    hide Percent;
  }

  lemma FailKeepsPoint(m: Metadata, l: Local, answer: Result)
    requires l.worker.FailResult? || l.worker.FailStop?
    requires AtPoint(m, l)
    ensures AtPoint(m, LocalNext(m, l, answer))
  {
    hide Percent, Complete;
  }

  lemma ScriptKeepsPoint(m: Metadata, l: Local, answer: Result)
    requires l.worker.ScriptCheck? || l.worker.ScriptExecute? || l.worker.ScriptResult? || l.worker.ScriptProgress?
    requires AtPoint(m, l)
    ensures AtPoint(m, LocalNext(m, l, answer))
  {
    PercentOrder(1, 1, 1);
    hide Percent;
  }

  lemma EndKeepsPoint(m: Metadata, l: Local, answer: Result)
    requires l.worker.Raise? || l.worker.Lower? || l.worker.FinalCheck? || l.worker.FinalUnknown?
    requires AtPoint(m, l)
    ensures AtPoint(m, LocalNext(m, l, answer))
  {
    PercentOrder(l.acknowledged, l.acknowledged, Units(m));
    hide Percent, PrefixRun;
  }

  /** One step of the worker keeps what is known. */
  lemma LocalKeepsPoint(m: Metadata, l: Local, answer: Result)
    requires LocalPoint(l.worker) && AtPoint(m, l)
    ensures AtPoint(m, LocalNext(m, l, answer))
  {
    hide AtPoint, LocalNext;
    match l.worker {
      case StageExecute(_) => ExecuteKeepsPoint(m, l, answer);
      case StageCheck(_) => CheckKeepsPoint(m, l, answer);
      case FailResult => FailKeepsPoint(m, l, answer);
      case FailStop => FailKeepsPoint(m, l, answer);
      case ScriptCheck => ScriptKeepsPoint(m, l, answer);
      case ScriptExecute => ScriptKeepsPoint(m, l, answer);
      case ScriptResult(_) => ScriptKeepsPoint(m, l, answer);
      case ScriptProgress => ScriptKeepsPoint(m, l, answer);
      case Raise => EndKeepsPoint(m, l, answer);
      case Lower => EndKeepsPoint(m, l, answer);
      case FinalCheck => EndKeepsPoint(m, l, answer);
      case FinalUnknown => EndKeepsPoint(m, l, answer);
      case _ => UpdateKeepsPoint(m, l, answer);
    }
  }

  lemma SuccessMeansComplete(m: Metadata, l: Local)
    requires AtPoint(m, l) && l.result == Success && !Pushing(l.worker)
    ensures Complete(m, l.returned)
  {
    hide Percent;
  }

  lemma LocalProgressGrows(m: Metadata, l: Local, answer: Result)
    requires LocalPoint(l.worker) && AtPoint(m, l)
    ensures l.progress <= LocalNext(m, l, answer).progress
  {
    PercentOrder(l.acknowledged, l.acknowledged + 1, Units(m));
    PercentOrder(0, 1, 1);
    hide Percent;
  }

  /** Nothing more is executed for the action. */
  predicate Final(m: Metadata, returned: seq<Execution>) {
    |returned| == Units(m) || Failed(returned)
  }

  /** Once everything was executed or something has failed nothing more is executed. */
  lemma LocalFinalStays(m: Metadata, l: Local, answer: Result)
    requires LocalPoint(l.worker) && AtPoint(m, l)
    requires Final(m, l.returned)
    ensures LocalNext(m, l, answer).returned == l.returned
  {
    hide Percent, Ended, Settled, ScriptRule;
  }

  /** From fetching an action to starting its reporter. */
  predicate Starting(w: Worker) {
    w.PushMetadata? || Pushing(w) || w.Spawn?
  }

  /** The vectors grow in step. While a reporter is alive the last entry of each vector is the entry
      of the action it was started for. */
  predicate Aligned(s: State) {
    var n := |s.metadata|;
    && |s.returned| == n
    && |s.fetched| == n
    && |s.results| == (if s.worker.PushResult? then n - 1 else n)
    && |s.progress| == (if Pushing(s.worker) then n - 1 else n)
    && (!Idle(s.worker) ==> n > 0)
    && (Idle(s.worker) || Pushing(s.worker) || s.worker.Spawn? || s.worker.Finish? <==> s.reporter.Absent?)
    && (!s.reporter.Absent? ==> s.reporterEntry == n - 1)
    && (Starting(s.worker) ==> s.actions != [])
    && (Pushing(s.worker) ==> Last(s.returned) == [] && s.acknowledged == 0)
    && (s.worker.PushProgress? ==> Last(s.results) == InProgress)
  }

  predicate Ready(s: State) {
    HasEntry(s) && !Pushing(s.worker)
  }

  predicate Known(s: State) {
    Ready(s) ==> AtPoint(Last(s.metadata), View(s))
  }

  /** Every success that was sent, or that the reporter is about to send, stands for an action of
      which everything returned success. */
  predicate Honest(s: State) {
    && |s.returned| == |s.metadata|
    && (forall i :: 0 <= i < |s.sent| ==> s.sent[i].entry < |s.metadata|)
    && (forall i :: 0 <= i < |s.sent| && s.sent[i].result == Success ==>
          Complete(s.metadata[s.sent[i].entry], s.returned[s.sent[i].entry]))
    && (s.reporter.Send? && s.reporter.result == Success ==>
          s.metadata != [] && Complete(Last(s.metadata), Last(s.returned)))
  }

  predicate Held(r: Reporter) {
    r.ReadResult? || r.Send?
  }

  /** The progress sent for one action never decreases and never runs ahead of the action. */
  predicate Monotone(s: State) {
    && (forall i, j :: 0 <= i < j < |s.sent| && s.sent[i].entry == s.sent[j].entry ==>
          s.sent[i].progress <= s.sent[j].progress)
    && (forall i :: 0 <= i < |s.sent| ==>
          s.sent[i].entry < |s.progress| && s.sent[i].progress <= s.progress[s.sent[i].entry])
    && (Held(s.reporter) ==>
          && s.progress != []
          && s.reporter.progress <= Last(s.progress)
          && (forall i :: 0 <= i < |s.sent| && s.sent[i].entry == s.reporterEntry ==>
                s.sent[i].progress <= s.reporter.progress))
  }

  predicate Invariant(s: State) {
    Aligned(s) && Known(s) && Honest(s) && Monotone(s)
  }

  lemma InitialInvariant()
    ensures Invariant(Initial())
  {
    hide AtPoint, Complete, Percent;
  }

  lemma StoreView(s: State, l: Local)
    requires HasEntry(s)
    ensures HasEntry(Store(s, l)) && View(Store(s, l)) == l
    ensures Store(s, l).metadata == s.metadata
  {
  }

  lemma LocalStaysLocal(m: Metadata, l: Local, answer: Result)
    requires LocalPoint(l.worker)
    ensures var w := LocalNext(m, l, answer).worker;
            !Idle(w) && !Pushing(w) && !w.Spawn? && !w.Finish?
  {
  }

  /** A step of the worker within the current action keeps the invariant. */
  lemma LocalStepKeepsInvariant(s: State, answer: Result)
    requires Invariant(s) && Ready(s) && LocalPoint(s.worker)
    ensures Invariant(Store(s, LocalNext(Last(s.metadata), View(s), answer)))
  {
    var m, l := Last(s.metadata), View(s);
    var l' := LocalNext(m, l, answer);
    LocalKeepsPoint(m, l, answer);
    LocalStaysLocal(m, l, answer);
    LocalProgressGrows(m, l, answer);
    if Complete(m, l.returned) {
      LocalFinalStays(m, l, answer);
    }
    hide AtPoint, LocalNext, Complete, Aligned, Known, Honest, Monotone, Idle, Pushing;
    StoreKeepsKnown(s, l');
    StoreKeepsReports(s, l');
  }

  lemma StoreKeepsKnown(s: State, l: Local)
    requires Aligned(s) && Ready(s) && LocalPoint(s.worker)
    requires AtPoint(Last(s.metadata), l)
    requires !Idle(l.worker) && !Pushing(l.worker) && !l.worker.Spawn? && !l.worker.Finish?
    ensures Aligned(Store(s, l)) && Known(Store(s, l))
  {
    hide AtPoint;
    StoreView(s, l);
  }

  lemma StoreKeepsReports(s: State, l: Local)
    requires Aligned(s) && Ready(s) && Honest(s) && Monotone(s)
    requires Last(s.progress) <= l.progress
    requires Complete(Last(s.metadata), Last(s.returned)) ==> l.returned == Last(s.returned)
    ensures Honest(Store(s, l)) && Monotone(Store(s, l))
  {
    hide Complete;
  }

  /** The other steps of the worker. */
  lemma WorkerKeepsInvariant(s: State, metadata: Metadata, answer: Result)
    requires Invariant(s)
    ensures Invariant(WorkerNext(s, metadata, answer))
  {
    if HasEntry(s) && LocalPoint(s.worker) {
      LocalStepKeepsInvariant(s, answer);
      hide Invariant, LocalNext;
    } else {
      GlobalStepKeepsInvariant(s, metadata, answer);
    }
  }

  lemma GlobalStepKeepsInvariant(s: State, metadata: Metadata, answer: Result)
    requires Invariant(s) && !(HasEntry(s) && LocalPoint(s.worker))
    ensures Invariant(WorkerNext(s, metadata, answer))
  {
    if s.worker.PushMetadata? || s.worker.PushResult? {
      NewEntryKeepsInvariant(s, metadata, answer);
    } else if Idle(s.worker) {
      IdleKeepsInvariant(s, metadata, answer);
    } else if s.worker.PushProgress? {
      ProgressEntryKeepsInvariant(s, metadata, answer);
    } else if s.worker.Spawn? {
      SpawnKeepsInvariant(s, metadata, answer);
    } else {
      CloseKeepsInvariant(s, metadata, answer);
    }
  }

  lemma NewEntryKeepsInvariant(s: State, metadata: Metadata, answer: Result)
    requires Invariant(s) && (s.worker.PushMetadata? || s.worker.PushResult?)
    ensures Invariant(WorkerNext(s, metadata, answer))
  {
    hide AtPoint, Complete;
  }

  lemma IdleKeepsInvariant(s: State, metadata: Metadata, answer: Result)
    requires Invariant(s) && (s.worker.Waiting? || s.worker.Fetch? || s.worker.WorkerFault?)
    ensures Invariant(WorkerNext(s, metadata, answer))
  {
    var s' := WorkerNext(s, metadata, answer);
    if HasEntry(s) {
      OutcomeIgnoresWorker(Last(s.metadata), View(s), s'.worker);
    }
    SentFrame(s, s');
    hide Complete, Settled, Honest, Monotone;
  }

  lemma ProgressEntryKeepsInvariant(s: State, metadata: Metadata, answer: Result)
    requires Invariant(s) && s.worker.PushProgress?
    ensures Invariant(WorkerNext(s, metadata, answer))
  {
    hide Complete;
  }

  lemma SpawnKeepsInvariant(s: State, metadata: Metadata, answer: Result)
    requires Invariant(s) && s.worker.Spawn?
    ensures Invariant(WorkerNext(s, metadata, answer))
  {
    hide Complete;
    SpawnPoint(Last(s.metadata), View(s));
    hide AtPoint;
  }

  lemma SpawnPoint(m: Metadata, l: Local)
    requires l.worker.Spawn? && AtPoint(m, l)
    ensures AtPoint(m, l.(worker := FirstStep(m)))
  {
    PercentOrder(0, 0, Units(m));
  }

  lemma OutcomeIgnoresWorker(m: Metadata, l: Local, w: Worker)
    ensures Ended(m, l) == Ended(m, l.(worker := w))
    ensures Settled(m, l) == Settled(m, l.(worker := w))
  {
  }

  lemma CloseKeepsInvariant(s: State, metadata: Metadata, answer: Result)
    requires Invariant(s) && (s.worker.Clear? || s.worker.Join? || s.worker.Finish?)
    ensures Invariant(WorkerNext(s, metadata, answer))
  {
    var s' := WorkerNext(s, metadata, answer);
    CloseKeepsKnown(s, s');
    SentFrame(s, s');
    hide Aligned, Known, Honest, Monotone;
  }

  lemma CloseKeepsKnown(s: State, s': State)
    requires Aligned(s) && Known(s)
    requires s.worker.Clear? || s.worker.Join? || s.worker.Finish?
    requires s' == WorkerNext(s, Last(s.metadata), Unknown)
    ensures Aligned(s') && Known(s')
  {
    OutcomeIgnoresWorker(Last(s.metadata), View(s), s'.worker);
    hide Ended, Settled;
  }

  /** Honesty and order of what was sent depend on the records and the reporter alone. */
  lemma SentFrame(s: State, s': State)
    requires s'.metadata == s.metadata && s'.returned == s.returned && s'.progress == s.progress
    requires s'.sent == s.sent && s'.reporterEntry == s.reporterEntry
    requires s'.reporter == s.reporter || s'.reporter.Absent?
    requires Honest(s) && Monotone(s)
    ensures Honest(s') && Monotone(s')
  {
    hide Complete;
  }

  lemma ReporterKeepsInvariant(s: State)
    requires Invariant(s)
    ensures Invariant(ReporterNext(s))
  {
    ReporterKeepsKnown(s);
    ReporterKeepsHonest(s);
    ReporterKeepsMonotone(s);
    hide *;
  }

  lemma ReporterKeepsKnown(s: State)
    requires Aligned(s) && Known(s)
    ensures Aligned(ReporterNext(s)) && Known(ReporterNext(s))
  {
    hide AtPoint;
  }

  lemma ReporterKeepsHonest(s: State)
    requires Aligned(s) && Known(s) && Honest(s)
    ensures Honest(ReporterNext(s))
  {
    if s.reporter.ReadResult? && Last(s.results) == Success {
      SuccessMeansComplete(Last(s.metadata), View(s));
    }
    hide AtPoint, Complete;
  }

  lemma ReporterKeepsMonotone(s: State)
    requires Aligned(s) && Monotone(s)
    ensures Monotone(ReporterNext(s))
  {
    if HasEntry(s) && s.reporter.Send? {
      SendKeepsMonotone(s);
      hide Monotone, Aligned;
    } else {
      ReadKeepsMonotone(s);
      hide Monotone, Aligned;
    }
  }

  lemma SendKeepsMonotone(s: State)
    requires HasEntry(s) && s.reporter.Send?
    requires Aligned(s) && Monotone(s)
    ensures Monotone(ReporterNext(s))
  {
    var r := Response(s.reporterEntry, s.reporter.progress, s.reporter.seen, s.reporter.result, s.reporterId);
    assert ReporterNext(s) == s.(reporter := Sleep, sent := s.sent + [r]);
    hide Aligned, ReporterNext;
    assert r.entry == |s.progress| - 1;
  }

  lemma NextCases(s: State, e: Event)
    ensures e.WorkerStep? ==> Next(s, e) == WorkerNext(s, e.metadata, e.result)
    ensures e.ReporterStep? ==> Next(s, e) == ReporterNext(s)
  {
    hide WorkerNext, ReporterNext;
  }

  /** What the reporter changes. */
  lemma ReporterFrame(s: State)
    ensures var s' := ReporterNext(s);
            && s' == s.(reporter := s'.reporter, sent := s'.sent)
            && (s'.sent == s.sent || (HasEntry(s) && s.reporter.Send?))
            && (Held(s'.reporter) ==>
                  if HasEntry(s) && s.reporter.ReadProgress? then
                    s'.reporter == ReadResult(Last(s.progress), s.acknowledged)
                  else
                    && Held(s.reporter)
                    && s'.reporter.progress == s.reporter.progress && s'.reporter.seen == s.reporter.seen)
            && (s'.reporter.Absent? <==> s.reporter.Absent?)
  {
  }

  lemma ReadKeepsMonotone(s: State)
    requires HasEntry(s) ==> !s.reporter.Send?
    requires Aligned(s) && Monotone(s)
    ensures Monotone(ReporterNext(s))
  {
    hide ReporterNext;
    ReporterFrame(s);
    if HasEntry(s) && s.reporter.ReadProgress? {
      assert s.reporterEntry == |s.progress| - 1;
    }
    hide Aligned;
  }

  lemma CancelKeepsPoint(m: Metadata, l: Local)
    requires AtPoint(m, l)
    ensures AtPoint(m, l.(stopped := true))
  {
    hide Percent;
  }

  /** What a cancellation or an arrival may change. */
  lemma CallbackFrame(s: State, e: Event)
    requires !e.WorkerStep? && !e.ReporterStep?
    ensures var s' := Next(s, e);
            && s' == s.(stopped := s.stopped || e.Cancel?, newAction := s'.newAction, actions := s'.actions,
                        arrival := s'.arrival)
            && s.actions <= s'.actions
  {
  }

  lemma CallbackKeepsInvariant(s: State, e: Event)
    requires Invariant(s) && !e.WorkerStep? && !e.ReporterStep?
    ensures Invariant(Next(s, e))
  {
    hide Next;
    if Ready(s) {
      CancelKeepsPoint(Last(s.metadata), View(s));
    }
    CallbackFrame(s, e);
    SentFrame(s, Next(s, e));
    hide AtPoint, Honest, Monotone;
  }

  lemma StepKeepsInvariant(s: State, e: Event)
    requires Invariant(s)
    ensures Invariant(Next(s, e))
  {
    hide Invariant;
    match e {
      case WorkerStep(m, r) => WorkerKeepsInvariant(s, m, r);
      case ReporterStep => ReporterKeepsInvariant(s);
      case _ => CallbackKeepsInvariant(s, e);
    }
  }

  lemma {:induction false} RunKeepsInvariant(s: State, events: seq<Event>)
    requires Invariant(s)
    ensures Invariant(Run(s, events))
    decreases events
  {
    hide Invariant, Next;
    if events != [] {
      StepKeepsInvariant(s, events[0]);
      RunKeepsInvariant(Next(s, events[0]), events[1..]);
    }
  }
}
