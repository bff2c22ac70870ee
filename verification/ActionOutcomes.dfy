/** What is executed of an action, and what is reported of one that fails. */
module ActionOutcomes {
  import opened ActionProtocol
  import opened ActionSafety
  import opened ActionTheorems

  // ----- what is executed

  /** The worker starts with the first stage if there are stages, with the script if there is only a script,
      and with neither if there is neither. */
  lemma StartRule(s: State, m: Metadata, answer: Result)
    requires Invariant(s) && s.worker.Spawn?
    ensures s.metadata != []
    ensures var first, w := Last(s.metadata), WorkerNext(s, m, answer).worker;
            && (first.stages > 0 <==> w == StageCheck(0))
            && (first.stages == 0 && first.hasGlobalScript <==> w == ScriptCheck)
            && (first.stages == 0 && !first.hasGlobalScript <==> w == Raise)
  {
    hide AtPoint, Honest, Monotone;
  }

  lemma LocalSawStop(s: State, m: Metadata, answer: Result)
    requires HasEntry(s) && LocalPoint(s.worker)
    ensures WorkerNext(s, m, answer).sawStop == if s.worker.ScriptCheck? then s.stopped else s.sawStop
  {
  }

  /** The recorded flag is the one the worker read before its script, and nothing else. */
  lemma SawStopIsRead(s: State, e: Event)
    requires Invariant(s)
    ensures Next(s, e).sawStop ==
              if e.WorkerStep? && s.worker.ScriptCheck? then s.stopped
              else if e.WorkerStep? && s.worker.PushMetadata? then false
              else s.sawStop
  {
    hide Known, Honest, Monotone, LocalNext;
    NextCases(s, e);
    match e {
      case WorkerStep(m, r) =>
        if LocalPoint(s.worker) {
          LocalSawStop(s, m, r);
          hide WorkerNext;
        } else {
          assert WorkerNext(s, m, r) == GlobalNext(s, m);
          hide WorkerNext;
        }
      case ReporterStep => ReporterFrame(s);
      case _ => CallbackFrame(s, e);
    }
    hide Next;
  }

  /** Over every run: when an action without stages is over, its script was executed exactly once if it has
      one, its completion condition asks for it and the stop flag was down when the worker read it, and
      not at all otherwise; a script that was not executed has an unknown result. */
  lemma ScriptOutcome(events: seq<Event>)
    ensures ScriptSettled(Run(Initial(), events))
  {
    hide *;
    assert Invariant(Initial()) by {
      InitialInvariant();
    }
    RunKeepsInvariant(Initial(), events);
    SettledScript(Run(Initial(), events));
  }

  predicate ScriptSettled(s: State) {
    HasEntry(s) && (s.worker.Join? || s.worker.Finish? || Idle(s.worker)) && Last(s.metadata).stages == 0 ==>
      var m, returned := Last(s.metadata), Last(s.returned);
      && |returned| <= 1
      && (|returned| == 1 <==>
            && m.hasGlobalScript
            && (m.completeCondition == OnResultSuccess || m.completeCondition == OnTimeout)
            && !s.sawStop)
      && (returned == [] ==> Last(s.results) == if m.hasGlobalScript then Unknown else InProgress)
      && (|returned| == 1 ==>
            Last(s.results) == if returned[0].result == Success then Unknown else returned[0].result)
  }

  lemma SettledScript(s: State)
    requires Invariant(s)
    ensures ScriptSettled(s)
  {
    SettledPoint(s);
    hide Invariant, Complete;
  }

  // ----- runs without a cancellation

  predicate PastLoop(w: Worker) {
    || w.Raise? || w.Lower? || w.Clear? || w.FinalCheck? || w.FinalUnknown? || w.Join? || w.Finish? || Idle(w)
  }

  /** The stop flag is only ever raised by the worker itself, and no stage was skipped. */
  predicate Unstopped(m: Metadata, l: Local) {
    && (l.stopped ==> l.worker.Raise? || l.worker.Lower?)
    && !l.sawStop
    && (m.stages > 0 && PastLoop(l.worker) ==> Failed(l.returned) || l.acknowledged == m.stages)
  }

  predicate NeverStopped(s: State) {
    && (s.stopped ==> s.worker.Raise? || s.worker.Lower?)
    && !s.sawStop
    && (Ready(s) ==> Unstopped(Last(s.metadata), View(s)))
  }

  lemma LocalStaysUnstopped(m: Metadata, l: Local, answer: Result)
    requires LocalPoint(l.worker) && AtPoint(m, l) && Unstopped(m, l)
    ensures Unstopped(m, LocalNext(m, l, answer))
  {
    hide Measured, Ended, Settled, Complete, Percent, InOrder, AllSuccess;
  }

  lemma LocalPointsDiffer(w: Worker)
    requires LocalPoint(w)
    ensures !Pushing(w) && !Idle(w)
  {
  }

  lemma WorkerStaysUnstopped(s: State, m: Metadata, answer: Result)
    requires Invariant(s) && NeverStopped(s)
    ensures NeverStopped(WorkerNext(s, m, answer))
  {
    if LocalPoint(s.worker) {
      LocalPointsDiffer(s.worker);
      if HasEntry(s) {
        LocalStaysUnstopped(Last(s.metadata), View(s), answer);
        StoreView(s, LocalNext(Last(s.metadata), View(s), answer));
        LocalStaysLocal(Last(s.metadata), View(s), answer);
        hide LocalNext, AtPoint, Honest, Monotone, GlobalNext;
      }
    } else {
      assert WorkerNext(s, m, answer) == GlobalNext(s, m);
      hide WorkerNext, AtPoint, Honest, Monotone;
    }
  }

  lemma StepStaysUnstopped(s: State, e: Event)
    requires Invariant(s) && NeverStopped(s) && !e.Cancel?
    ensures NeverStopped(Next(s, e))
  {
    NextCases(s, e);
    hide Next, ReporterNext, WorkerNext, Invariant;
    match e {
      case WorkerStep(m, r) => WorkerStaysUnstopped(s, m, r);
      case ReporterStep => ReporterFrame(s);
      case _ => CallbackFrame(s, e);
    }
  }

  lemma {:induction false} RunStaysUnstopped(s: State, events: seq<Event>)
    requires Invariant(s) && NeverStopped(s) && NoCancel(events)
    ensures Invariant(Run(s, events)) && NeverStopped(Run(s, events))
    decreases events
  {
    hide Invariant, NeverStopped, Next;
    if events != [] {
      StepKeepsInvariant(s, events[0]);
      StepStaysUnstopped(s, events[0]);
      assert NoCancel(events[1..]);
      RunStaysUnstopped(Next(s, events[0]), events[1..]);
    }
  }

  /** On every run without a cancellation an action that is over was executed completely: all its stages up
      to the first failure, or its script exactly once if it has one to be executed. */
  lemma UncancelledOutcome(events: seq<Event>)
    requires NoCancel(events)
    ensures ExecutedCompletely(Run(Initial(), events))
  {
    hide *;
    assert Invariant(Initial()) && NeverStopped(Initial()) by {
      InitialUnstopped();
    }
    RunStaysUnstopped(Initial(), events);
    UnstoppedOutcome(Run(Initial(), events));
  }

  lemma InitialUnstopped()
    ensures Invariant(Initial()) && NeverStopped(Initial())
  {
    hide Invariant;
    InitialInvariant();
  }

  predicate ExecutedCompletely(s: State) {
    HasEntry(s) && (s.worker.Join? || s.worker.Finish? || Idle(s.worker)) ==>
      var m, returned := Last(s.metadata), Last(s.returned);
      && (m.stages > 0 ==> Complete(m, returned) || (Failed(returned) && Last(s.results) == Error))
      && (m.stages == 0 ==>
            |returned| == if m.hasGlobalScript && !m.completeCondition.OtherCondition? then 1 else 0)
  }

  lemma UnstoppedOutcome(s: State)
    requires Invariant(s) && NeverStopped(s)
    ensures ExecutedCompletely(s)
  {
    SettledPoint(s);
    hide Invariant, Complete;
  }

  // ----- what is reported

  /** The response was put together from two reads of the run: its progress at event m, its result at the
      later event n, both of the entry it is about. */
  predicate WasRead(s0: State, events: seq<Event>, r: Response, m: nat, n: nat) {
    && m < n < |events| && events[m].ReporterStep? && events[n].ReporterStep?
    && ReadsProgress(Run(s0, events[..m]), r.entry, r.progress, r.seen)
    && ReadsResult(Run(s0, events[..n]), r.entry, r.result)
  }

  predicate ReadsProgress(s: State, entry: nat, progress: real, seen: nat) {
    && HasEntry(s) && s.reporter.ReadProgress?
    && entry == |s.metadata| - 1 && progress == Last(s.progress) && seen == s.acknowledged
  }

  predicate ReadsResult(s: State, entry: nat, result: Result) {
    && HasEntry(s) && s.reporter.ReadResult?
    && entry == |s.metadata| - 1 && result == Last(s.results)
  }

  ghost predicate ProgressWasRead(s0: State, events: seq<Event>, entry: nat, progress: real, seen: nat) {
    exists m: nat :: m < |events| && events[m].ReporterStep?
      && ReadsProgress(Run(s0, events[..m]), entry, progress, seen)
  }

  ghost predicate ResponseWasRead(s0: State, events: seq<Event>, r: Response) {
    exists m: nat, n: nat :: WasRead(s0, events, r, m, n)
  }

  /** The response the reporter is about to send. */
  function Pending(s: State): Response
    requires s.reporter.Send?
  {
    Response(s.reporterEntry, s.reporter.progress, s.reporter.seen, s.reporter.result, s.reporterId)
  }

  /** Where the parts of what the reporter holds or has sent come from. */
  ghost predicate AllRead(s0: State, events: seq<Event>) {
    var s := Run(s0, events);
    && (s.reporter.ReadResult? ==>
          ProgressWasRead(s0, events, s.reporterEntry, s.reporter.progress, s.reporter.seen))
    && (s.reporter.Send? ==> ResponseWasRead(s0, events, Pending(s)))
    && (forall i :: 0 <= i < |s.sent| ==> ResponseWasRead(s0, events, s.sent[i]))
  }

  lemma ReadsStay(s0: State, events: seq<Event>, e: Event)
    ensures forall r :: ResponseWasRead(s0, events, r) ==> ResponseWasRead(s0, events + [e], r)
    ensures forall entry, progress, seen :: ProgressWasRead(s0, events, entry, progress, seen) ==>
              ProgressWasRead(s0, events + [e], entry, progress, seen)
  {
    hide Run, ReadsProgress, ReadsResult;
    var longer := events + [e];
    forall k: nat | k <= |events| ensures longer[..k] == events[..k] {
    }
    forall r | ResponseWasRead(s0, events, r) ensures ResponseWasRead(s0, longer, r) {
      var m: nat, n: nat :| WasRead(s0, events, r, m, n);
      assert WasRead(s0, longer, r, m, n);
    }
    forall entry, progress, seen | ProgressWasRead(s0, events, entry, progress, seen)
      ensures ProgressWasRead(s0, longer, entry, progress, seen)
    {
      var m: nat :| m < |events| && events[m].ReporterStep?
        && ReadsProgress(Run(s0, events[..m]), entry, progress, seen);
      assert longer[m] == events[m];
    }
  }

  lemma ProgressReadNow(s0: State, events: seq<Event>, entry: nat, progress: real, seen: nat)
    requires ReadsProgress(Run(s0, events), entry, progress, seen)
    ensures ProgressWasRead(s0, events + [ReporterStep], entry, progress, seen)
  {
    hide Run, ReadsProgress;
    assert (events + [ReporterStep])[..|events|] == events;
    assert (events + [ReporterStep])[|events|] == ReporterStep;
  }

  lemma ResultReadNow(s0: State, events: seq<Event>, r: Response)
    requires ProgressWasRead(s0, events, r.entry, r.progress, r.seen)
    requires ReadsResult(Run(s0, events), r.entry, r.result)
    ensures ResponseWasRead(s0, events + [ReporterStep], r)
  {
    hide Run, ReadsProgress, ReadsResult;
    var longer := events + [ReporterStep];
    var m: nat :| m < |events| && events[m].ReporterStep?
      && ReadsProgress(Run(s0, events[..m]), r.entry, r.progress, r.seen);
    assert longer[..m] == events[..m] && longer[m] == events[m];
    assert longer[..|events|] == events && longer[|events|] == ReporterStep;
    assert WasRead(s0, longer, r, m, |events|);
  }

  /** What the reporter does to what it holds, exactly. */
  lemma ReporterMoves(s: State)
    requires Aligned(s)
    ensures var s' := ReporterNext(s);
            && (s'.reporter.ReadResult? && s'.reporter != s.reporter ==>
                  ReadsProgress(s, s'.reporterEntry, s'.reporter.progress, s'.reporter.seen))
            && (s'.reporter.Send? && s'.reporter != s.reporter ==>
                  && s.reporter.ReadResult?
                  && s'.reporter.progress == s.reporter.progress && s'.reporter.seen == s.reporter.seen
                  && ReadsResult(s, s'.reporterEntry, s'.reporter.result))
            && (s'.sent == s.sent
                || (s.reporter.Send?
                    && s'.sent == s.sent + [Response(s.reporterEntry, s.reporter.progress, s.reporter.seen,
                                                     s.reporter.result, s.reporterId)]))
            && s'.reporterEntry == s.reporterEntry && s'.reporterId == s.reporterId
  {
  }

  /** Other steps leave what the reporter holds and has sent alone. */
  lemma OthersLeaveReports(s: State, e: Event)
    requires Aligned(s) && !e.ReporterStep?
    ensures var s' := Next(s, e);
            && s'.sent == s.sent
            && (Held(s'.reporter) ==>
                  s'.reporter == s.reporter && s'.reporterEntry == s.reporterEntry && s'.reporterId == s.reporterId)
  {
    NextCases(s, e);
    if e.WorkerStep? {
      WorkerReports(s, e.metadata, e.result);
    } else {
      CallbackFrame(s, e);
    }
    hide Next, WorkerNext;
  }

  lemma WorkerReports(s: State, m: Metadata, answer: Result)
    requires Aligned(s)
    ensures var s' := WorkerNext(s, m, answer);
            && s'.sent == s.sent
            && (Held(s'.reporter) ==>
                  s'.reporter == s.reporter && s'.reporterEntry == s.reporterEntry && s'.reporterId == s.reporterId)
  {
    hide LocalNext;
    if LocalPoint(s.worker) {
      if HasEntry(s) {
        hide GlobalNext;
      }
    } else {
      assert WorkerNext(s, m, answer) == GlobalNext(s, m);
      hide WorkerNext, FirstStep;
    }
  }

  lemma ReadGrows(s0: State, events: seq<Event>, e: Event)
    requires AllRead(s0, events) && Invariant(Run(s0, events))
    ensures AllRead(s0, events + [e])
  {
    hide Run, ReadsProgress, ReadsResult, Invariant, ProgressWasRead, ResponseWasRead;
    RunAppend(s0, events, e);
    var s := Run(s0, events);
    var s' := Next(s, e);
    InvariantAligned(s);
    ReadsStay(s0, events, e);
    if e.ReporterStep? {
      NextCases(s, e);
      ReporterMoves(s);
      hide Next, ReporterNext;
      if s'.reporter.ReadResult? && s'.reporter != s.reporter {
        ProgressReadNow(s0, events, s'.reporterEntry, s'.reporter.progress, s'.reporter.seen);
      }
      if s'.reporter.Send? && s'.reporter != s.reporter {
        ResultReadNow(s0, events, Pending(s'));
      }
    } else {
      OthersLeaveReports(s, e);
      hide Next;
    }
  }

  lemma {:induction false} RunsAreRead(s0: State, events: seq<Event>)
    requires Invariant(s0) && !Held(s0.reporter) && s0.sent == []
    ensures AllRead(s0, events)
    decreases |events|
  {
    hide Invariant, AllRead, Next;
    if events == [] {
      NothingRead(s0);
    } else {
      var before := events[..|events| - 1];
      RunsAreRead(s0, before);
      RunKeepsInvariant(s0, before);
      ReadGrows(s0, before, events[|events| - 1]);
      assert before + [events[|events| - 1]] == events;
    }
  }

  lemma NothingRead(s0: State)
    requires !Held(s0.reporter) && s0.sent == []
    ensures AllRead(s0, [])
  {
  }

  /** Under every interleaving: each response carries the progress and the result its action really had,
      each at the moment it was read, progress first. In particular a failure is never hidden. */
  lemma ResponsesWereRead(events: seq<Event>)
    ensures var s := Run(Initial(), events);
            forall i :: 0 <= i < |s.sent| ==> ResponseWasRead(Initial(), events, s.sent[i])
  {
    hide *;
    InitialReads();
    RunsAreRead(Initial(), events);
    SentWereRead(Initial(), events);
  }

  lemma InitialReads()
    ensures Invariant(Initial()) && !Held(Initial().reporter) && Initial().sent == []
  {
    hide Invariant;
    InitialInvariant();
  }

  lemma SentWereRead(s0: State, events: seq<Event>)
    requires AllRead(s0, events)
    ensures var s := Run(s0, events);
            forall i :: 0 <= i < |s.sent| ==> ResponseWasRead(s0, events, s.sent[i])
  {
    hide Run, ResponseWasRead;
  }
}
