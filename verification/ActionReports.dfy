/** What the responses to the autopilot say: how far an action had come when its progress was read, and
    which action a response is about. */
module ActionReports {
  import opened ActionProtocol
  import opened ActionSafety
  import opened ActionTheorems

  // ----- what a step leaves alone

  lemma LocalFrame(s: State, metadata: Metadata, answer: Result)
    requires HasEntry(s) && LocalPoint(s.worker)
    ensures var s' := WorkerNext(s, metadata, answer);
            && s'.sent == s.sent && s'.reporter == s.reporter && s'.reporterId == s.reporterId
            && s'.fetched == s.fetched && s'.metadata == s.metadata && s'.actions == s.actions
            && !Starting(s'.worker)
  {
    LocalStaysLocal(Last(s.metadata), View(s), answer);
    hide LocalNext;
  }

  /** The worker sends nothing, forgets no action, and touches the reporter only to start and to join it. */
  lemma WorkerFrame(s: State, metadata: Metadata, answer: Result)
    ensures var s' := WorkerNext(s, metadata, answer);
            && s'.sent == s.sent
            && s.fetched <= s'.fetched
            && ((s'.reporter == s.reporter && s'.reporterId == s.reporterId)
                || (s.worker.Spawn? && s'.reporter.CheckStop?) || s'.reporter.Absent?)
            && (s'.metadata == s.metadata || s.worker.PushMetadata?)
  {
    if LocalPoint(s.worker) {
      if HasEntry(s) {
        LocalFrame(s, metadata, answer);
        hide WorkerNext;
      }
    } else {
      assert WorkerNext(s, metadata, answer) == GlobalNext(s, metadata);
      hide WorkerNext, FirstStep;
    }
  }

  // ----- progress

  /** The progress of a report is the share of pieces acknowledged when it was read; a full one stands
      for a complete action. */
  predicate Dated(m: Metadata, returned: seq<Execution>, progress: real, seen: nat) {
    && seen <= Units(m)
    && progress == Percent(seen, Units(m))
    && (seen == Units(m) ==> Complete(m, returned))
  }

  predicate AllDated(s: State) {
    && |s.metadata| == |s.returned|
    && (forall i :: 0 <= i < |s.sent| ==>
          && s.sent[i].entry < |s.metadata|
          && Dated(s.metadata[s.sent[i].entry], s.returned[s.sent[i].entry], s.sent[i].progress, s.sent[i].seen))
    && (Held(s.reporter) ==>
          && s.metadata != []
          && Dated(Last(s.metadata), Last(s.returned), s.reporter.progress, s.reporter.seen))
  }

  /** What the reporter reads as progress, exactly. */
  lemma ReadIsExact(s: State)
    requires Invariant(s) && s.reporter.ReadProgress?
    ensures HasEntry(s)
    ensures Next(s, ReporterStep).reporter == ReadResult(Last(s.progress), s.acknowledged)
    ensures Dated(Last(s.metadata), Last(s.returned), Last(s.progress), s.acknowledged)
    ensures Last(s.progress) == 100.0 <==> s.acknowledged == Units(Last(s.metadata))
  {
    AcknowledgedMeansComplete(Last(s.metadata), View(s));
    PercentOrder(s.acknowledged, s.acknowledged, Units(Last(s.metadata)));
    hide Percent, Complete, OutcomeAt, Honest, Monotone;
  }

  lemma AcknowledgedMeansComplete(m: Metadata, l: Local)
    requires AtPoint(m, l) && !Pushing(l.worker)
    ensures l.acknowledged == Units(m) ==> Complete(m, l.returned)
  {
    hide Percent;
  }

  lemma LocalRecords(s: State, metadata: Metadata, answer: Result)
    requires Invariant(s) && HasEntry(s) && LocalPoint(s.worker)
    ensures var s' := WorkerNext(s, metadata, answer);
            && |s'.returned| == |s.returned|
            && forall k :: 0 <= k < |s.metadata| && Final(s.metadata[k], s.returned[k]) ==>
                 s'.returned[k] == s.returned[k]
  {
    var m, l := Last(s.metadata), View(s);
    if Final(m, l.returned) {
      LocalFinalStays(m, l, answer);
    }
    hide AtPoint, LocalNext, Final, Honest, Monotone;
  }

  /** The executions recorded for an entry only grow while the action runs, and a record that is complete
      or ends with a failure is final. */
  lemma RecordsStay(s: State, e: Event)
    requires Invariant(s)
    ensures var s' := Next(s, e);
            && s.metadata <= s'.metadata
            && |s'.returned| == |s'.metadata|
            && forall k :: 0 <= k < |s.metadata| && Final(s.metadata[k], s.returned[k]) ==>
                 s'.returned[k] == s.returned[k]
  {
    hide Final, Known, Honest, Monotone, LocalNext;
    match e {
      case WorkerStep(m, r) =>
        if LocalPoint(s.worker) {
          if HasEntry(s) {
            LocalRecords(s, m, r);
            LocalFrame(s, m, r);
            hide WorkerNext;
          }
        } else {
          assert WorkerNext(s, m, r) == GlobalNext(s, m);
          hide WorkerNext, FirstStep;
        }
      case ReporterStep =>
        ReporterFrame(s);
        hide ReporterNext;
      case _ =>
        CallbackFrame(s, e);
        hide Next;
    }
  }

  lemma CompleteIsFinal(m: Metadata, returned: seq<Execution>)
    ensures Complete(m, returned) ==> Final(m, returned)
  {
  }

  lemma StepKeepsDated(s: State, e: Event)
    requires Invariant(s) && AllDated(s)
    ensures AllDated(Next(s, e))
  {
    hide Next, Percent, Complete, Units, Aligned, Known, Honest, Monotone, Held;
    RecordsStay(s, e);
    ReportFrame(s, e);
    forall k | 0 <= k < |s.metadata| && k < |s.returned|
      ensures Complete(s.metadata[k], s.returned[k]) ==> Final(s.metadata[k], s.returned[k])
    {
      CompleteIsFinal(s.metadata[k], s.returned[k]);
    }
    hide Final;
    var s' := Next(s, e);
    if e.ReporterStep? && s.reporter.ReadProgress? {
      ReadIsExact(s);
      ReporterFrame(s);
      NextCases(s, e);
    }
  }

  /** Where the reports of the next state come from. */
  lemma ReportFrame(s: State, e: Event)
    requires Aligned(s)
    ensures var s' := Next(s, e);
            && (Held(s'.reporter) && !(e.ReporterStep? && s.reporter.ReadProgress?) ==>
                  && Held(s.reporter) && s.metadata != []
                  && s'.metadata == s.metadata
                  && s'.reporter.progress == s.reporter.progress && s'.reporter.seen == s.reporter.seen)
            && (s'.sent == s.sent
                || (Held(s.reporter) && s.metadata != []
                    && s'.sent == s.sent + [Last(s'.sent)]
                    && Last(s'.sent).entry == |s.metadata| - 1
                    && Last(s'.sent).progress == s.reporter.progress && Last(s'.sent).seen == s.reporter.seen))
  {
    if e.WorkerStep? {
      WorkerFrame(s, e.metadata, e.result);
    }
    hide WorkerNext;
  }

  lemma {:induction false} RunKeepsDated(s: State, events: seq<Event>)
    requires Invariant(s) && AllDated(s)
    ensures AllDated(Run(s, events))
    decreases events
  {
    hide Invariant, Next, AllDated;
    if events != [] {
      StepKeepsInvariant(s, events[0]);
      StepKeepsDated(s, events[0]);
      RunKeepsDated(Next(s, events[0]), events[1..]);
    }
  }

  predicate FullProgressReport(s: State, r: Response) {
    && r.entry < |s.metadata| == |s.returned|
    && var m := s.metadata[r.entry];
    && r.progress == Percent(r.seen, Units(m))
    && (r.progress == 100.0 <==> r.seen == Units(m))
    && (r.progress == 100.0 ==> Complete(m, s.returned[r.entry]))
  }

  /** Under every interleaving: a response carries full progress exactly when all stages (or the script)
      had been acknowledged at the moment its progress was read, and then the action is complete. In
      particular a success says 100 exactly then, and one that does not was torn between the two reads. */
  lemma FullProgressRule(events: seq<Event>)
    ensures var s := Run(Initial(), events);
            forall i :: 0 <= i < |s.sent| ==> FullProgressReport(s, s.sent[i])
  {
    hide FullProgressReport, Percent, Complete, Invariant, Run, AllDated;
    var s0 := Initial();
    assert AllDated(s0) by {
      InitialDated();
    }
    InitialInvariant();
    RunKeepsDated(s0, events);
    DatedReports(Run(s0, events));
  }

  lemma InitialDated()
    ensures AllDated(Initial()) && SameAction(Initial()) && Named(Initial())
  {
  }

  lemma DatedReports(s: State)
    requires AllDated(s)
    ensures forall i :: 0 <= i < |s.sent| ==> FullProgressReport(s, s.sent[i])
  {
    hide Percent, Complete, Units;
    forall i | 0 <= i < |s.sent| ensures FullProgressReport(s, s.sent[i]) {
      PercentOrder(s.sent[i].seen, s.sent[i].seen, Units(s.metadata[s.sent[i].entry]));
    }
  }

  // ----- whose action it is

  /** The worker and the reporter are about the action that was fetched. */
  predicate SameAction(s: State) {
    && (s.worker.PushMetadata? ==> s.actions != [] && Last(s.actions) == s.worker.id)
    && (Pushing(s.worker) || s.worker.Spawn? ==>
          s.actions != [] && s.fetched != [] && Last(s.actions) == Last(s.fetched))
    && (!s.reporter.Absent? ==> s.fetched != [] && s.reporterId == Last(s.fetched))
  }

  /** An arrival queues another action between fetching one and starting its reporter. */
  predicate Late(s: State, e: Event) {
    e.ArrivalStep? && s.arrival.Append? && Starting(s.worker) && s.actions != [] && s.arrival.id != Last(s.actions)
  }

  lemma WorkerKeepsAction(s: State, metadata: Metadata, answer: Result)
    requires Aligned(s) && SameAction(s)
    ensures SameAction(WorkerNext(s, metadata, answer))
  {
    if LocalPoint(s.worker) {
      if HasEntry(s) {
        LocalFrame(s, metadata, answer);
        hide WorkerNext;
      }
    } else {
      assert WorkerNext(s, metadata, answer) == GlobalNext(s, metadata);
      hide WorkerNext, FirstStep;
      if s.worker.Spawn? && s.metadata != [] {
        FirstPointIsLocal(Last(s.metadata));
      }
    }
  }

  lemma FirstPointIsLocal(m: Metadata)
    ensures LocalPoint(FirstStep(m))
  {
  }

  lemma ReporterKeepsAction(s: State)
    requires SameAction(s)
    ensures SameAction(ReporterNext(s))
  {
  }

  lemma CallbackRule(s: State, e: Event)
    requires Aligned(s) && SameAction(s)
    requires !e.WorkerStep? && !e.ReporterStep?
    ensures SameAction(Next(s, e)) <==> !Late(s, e)
  {
    hide WorkerNext, ReporterNext;
  }

  /** Exactly a late arrival breaks the correspondence. */
  lemma LateArrivalRule(s: State, e: Event)
    requires Invariant(s) && SameAction(s)
    ensures SameAction(Next(s, e)) <==> !Late(s, e)
  {
    hide SameAction, WorkerNext, ReporterNext, Known, Honest, Monotone, Aligned;
    match e {
      case WorkerStep(m, r) => WorkerKeepsAction(s, m, r);
      case ReporterStep => ReporterKeepsAction(s);
      case _ => CallbackRule(s, e);
    }
  }

  predicate NoLateArrival(s: State, events: seq<Event>)
    decreases events
  {
    events != [] ==> !Late(s, events[0]) && NoLateArrival(Next(s, events[0]), events[1..])
  }

  /** Over a run: the reporter is about the fetched action at every moment exactly when no arrival of
      the run is late. */
  lemma {:induction false} ReporterAnswersForItsAction(s: State, events: seq<Event>)
    requires Invariant(s) && SameAction(s)
    ensures NoLateArrival(s, events) <==> forall n :: 0 <= n <= |events| ==> SameAction(Run(s, events[..n]))
    decreases events
  {
    hide Invariant, Next, SameAction, Late;
    if events == [] {
      assert forall n :: 0 <= n <= |events| ==> events[..n] == [];
    } else {
      var e, rest := events[0], events[1..];
      LateArrivalRule(s, e);
      StepKeepsInvariant(s, e);
      PrefixShift(s, events);
      assert Run(s, events[..1]) == Next(s, e);
      if !Late(s, e) {
        ReporterAnswersForItsAction(Next(s, e), rest);
        if forall n :: 0 <= n <= |rest| ==> SameAction(Run(Next(s, e), rest[..n])) {
          forall n | 0 <= n <= |events| ensures SameAction(Run(s, events[..n])) {
            if n > 0 {
              assert SameAction(Run(Next(s, e), rest[..n - 1]));
            }
          }
        }
        if forall n :: 0 <= n <= |events| ==> SameAction(Run(s, events[..n])) {
          forall n | 0 <= n <= |rest| ensures SameAction(Run(Next(s, e), rest[..n])) {
            assert SameAction(Run(s, events[..n + 1]));
          }
        }
      }
    }
  }

  /** Every response names the action its entry was fetched for. */
  predicate Named(s: State) {
    forall i :: 0 <= i < |s.sent| ==>
      s.sent[i].entry < |s.fetched| && s.sent[i].actionId == s.fetched[s.sent[i].entry]
  }

  lemma StepKeepsNamed(s: State, e: Event)
    requires Invariant(s) && SameAction(s) && Named(s)
    ensures Named(Next(s, e))
  {
    hide Known, Honest, Monotone;
    if e.WorkerStep? {
      WorkerFrame(s, e.metadata, e.result);
    }
    hide WorkerNext;
  }

  lemma {:induction false} RunKeepsNamed(s: State, events: seq<Event>)
    requires Invariant(s) && SameAction(s) && Named(s)
    requires NoLateArrival(s, events)
    ensures Named(Run(s, events))
    decreases events
  {
    hide Invariant, Next, SameAction, Named, Late;
    if events != [] {
      LateArrivalRule(s, events[0]);
      StepKeepsInvariant(s, events[0]);
      StepKeepsNamed(s, events[0]);
      RunKeepsNamed(Next(s, events[0]), events[1..]);
    }
  }

  predicate NamesItsAction(s: State, r: Response) {
    && r.entry < |s.fetched| == |s.metadata| == |s.returned|
    && r.actionId == s.fetched[r.entry]
    && (r.result == Success ==> Complete(s.metadata[r.entry], s.returned[r.entry]))
  }

  /** About the message itself: on every run without a late arrival, a response that says success names
      an action that was fetched and of which every stage (or the script) returned success. */
  lemma SuccessNamesCompleteAction(events: seq<Event>)
    requires NoLateArrival(Initial(), events)
    ensures var s := Run(Initial(), events);
            forall i :: 0 <= i < |s.sent| ==> NamesItsAction(s, s.sent[i])
  {
    hide Run, NoLateArrival, Invariant, SameAction, Named, NamesItsAction;
    InitialInvariant();
    InitialDated();
    RunKeepsNamed(Initial(), events);
    RunKeepsInvariant(Initial(), events);
    NamedReports(Run(Initial(), events));
  }

  lemma NamedReports(s: State)
    requires Invariant(s) && Named(s)
    ensures forall i :: 0 <= i < |s.sent| ==> NamesItsAction(s, s.sent[i])
  {
    hide Complete, AtPoint, Monotone;
  }

  /** With a late arrival it fails: the reporter is given the number of the other action. */
  lemma LateArrivalMislabels(m: Metadata)
    ensures exists s :: Reaches(Initial(), s) && s.fetched == [1] && !s.reporter.Absent? && s.reporterId == 2
  {
    hide LocalNext, Run, Reaches;
    var s0, w := Fetched(), WorkerStep(m, Success);
    ReachesFetched();
    ReachesStep(Initial(), s0, Arrive(2, true));
    var s1 := s0.(arrival := Compare(2, true));
    assert Next(s0, Arrive(2, true)) == s1;
    ReachesStep(Initial(), s1, ArrivalStep);
    var s2 := s0.(arrival := Append(2));
    assert Next(s1, ArrivalStep) == s2;
    ReachesStep(Initial(), s2, ArrivalStep);
    var s3 := s0.(actions := [1, 2], arrival := Announce);
    assert Next(s2, ArrivalStep) == s3;
    ReachesStep(Initial(), s3, w);
    var s4 := s3.(worker := PushResult, metadata := [m], returned := [[]], fetched := [1]);
    assert Next(s3, w) == s4;
    ReachesStep(Initial(), s4, w);
    ReachesStep(Initial(), Next(s4, w), w);
    var s6 := s4.(worker := Spawn, results := [InProgress], progress := [0.0]);
    assert Next(Next(s4, w), w) == s6;
    ReachesStep(Initial(), s6, w);
    assert Next(s6, w).fetched == [1] && Next(s6, w).reporterId == 2;
  }
}
