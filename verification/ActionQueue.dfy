/** When the worker or an arriving action reads the end of an empty queue: announcing a new action and
    queueing it are two steps, and the worker clears the queue in between. */
module ActionQueue {
  import opened ActionProtocol
  import opened ActionSafety
  import opened ActionTheorems

  /** Whoever is about to read the end of the queue finds something there. */
  predicate QueueFilled(s: State) {
    && ((s.worker.Waiting? && s.newAction) || s.worker.Fetch? ==> s.actions != [])
    && (s.arrival.Compare? ==> s.actions != [])
    && !s.worker.WorkerFault? && !s.arrival.ArrivalFault?
  }

  /** A waiting worker is told of a new action that has been cleared away, or the queue is cleared
      between the two reads of an arriving action. */
  predicate Endangers(s: State, e: Event) {
    || (e.ArrivalStep? && s.arrival.Announce? && s.worker.Waiting? && s.actions == [])
    || (e.WorkerStep? && s.worker.Clear? && s.arrival.Compare?)
  }

  lemma LocalQueue(s: State, metadata: Metadata, answer: Result)
    requires HasEntry(s) && LocalPoint(s.worker)
    ensures var s' := WorkerNext(s, metadata, answer);
            && s'.actions == s.actions && s'.arrival == s.arrival && s'.newAction == s.newAction
            && !Idle(s'.worker)
  {
    LocalStaysLocal(Last(s.metadata), View(s), answer);
    hide LocalNext;
  }

  lemma WorkerQueueRule(s: State, metadata: Metadata, answer: Result)
    requires Aligned(s) && QueueFilled(s)
    ensures QueueFilled(WorkerNext(s, metadata, answer)) <==> !(s.worker.Clear? && s.arrival.Compare?)
  {
    hide LocalNext;
    if HasEntry(s) && LocalPoint(s.worker) {
      LocalQueue(s, metadata, answer);
    }
  }

  /** Exactly these two events lead to reading an empty queue. */
  lemma QueueRule(s: State, e: Event)
    requires Aligned(s) && QueueFilled(s)
    ensures QueueFilled(Next(s, e)) <==> !Endangers(s, e)
  {
    hide WorkerNext, Aligned;
    if e.WorkerStep? {
      WorkerQueueRule(s, e.metadata, e.result);
    }
  }

  predicate NoDanger(s: State, events: seq<Event>)
    decreases events
  {
    events != [] ==> !Endangers(s, events[0]) && NoDanger(Next(s, events[0]), events[1..])
  }

  lemma {:induction false} RunKeepsQueue(s: State, events: seq<Event>)
    requires Invariant(s) && QueueFilled(s)
    ensures NoDanger(s, events) <==> forall n :: 0 <= n <= |events| ==> QueueFilled(Run(s, events[..n]))
    decreases events
  {
    hide Invariant, Next, QueueFilled, Endangers;
    if events == [] {
      assert forall n :: 0 <= n <= |events| ==> events[..n] == [];
    } else {
      var e, rest := events[0], events[1..];
      assert QueueFilled(Next(s, e)) <==> !Endangers(s, e) by {
        assert Aligned(s) by {
          InvariantAligned(s);
        }
        QueueRule(s, e);
      }
      StepKeepsInvariant(s, e);
      PrefixShift(s, events);
      if !Endangers(s, e) {
        RunKeepsQueue(Next(s, e), rest);
        if forall n :: 0 <= n <= |rest| ==> QueueFilled(Run(Next(s, e), rest[..n])) {
          forall n | 0 <= n <= |events| ensures QueueFilled(Run(s, events[..n])) {
            if n > 0 {
              assert QueueFilled(Run(Next(s, e), rest[..n - 1]));
            }
          }
        }
        if forall n :: 0 <= n <= |events| ==> QueueFilled(Run(s, events[..n])) {
          forall n | 0 <= n <= |rest| ensures QueueFilled(Run(Next(s, e), rest[..n])) {
            assert QueueFilled(Run(s, events[..n + 1]));
          }
        }
      } else {
        assert !QueueFilled(Run(s, events[..1]));
      }
    }
  }

  lemma InitialQueue()
    ensures Invariant(Initial()) && QueueFilled(Initial())
  {
    hide Invariant;
    InitialInvariant();
  }

  lemma FilledMeansNoFault(s: State)
    ensures QueueFilled(s) ==> !s.worker.WorkerFault? && !s.arrival.ArrivalFault?
  {
  }

  /** On every run: neither thread ever reads an empty queue, provided no new action is announced to a
      waiting worker after being cleared away and the queue is never cleared between the two reads of an
      arriving action; and the condition is exact for having something to read at every moment. */
  lemma QueueIsNeverReadEmpty(events: seq<Event>)
    ensures NoDanger(Initial(), events)
       <==> forall n :: 0 <= n <= |events| ==> QueueFilled(Run(Initial(), events[..n]))
    ensures NoDanger(Initial(), events) ==>
              !Run(Initial(), events).worker.WorkerFault? && !Run(Initial(), events).arrival.ArrivalFault?
  {
    hide *;
    InitialQueue();
    FilledMeansNoFault(Run(Initial(), events));
    RunKeepsQueue(Initial(), events);
    assert events[..|events|] == events;
  }

  /** The state in which a waiting worker is about to be told of an action that was cleared away. */
  function Overtaken(m: Metadata): State {
    Spawned(m).(worker := Waiting, reporter := Absent, actions := [], newAction := false, arrival := Announce)
  }

  /** An action without stages whose reporter has left while the stop flag is raised. */
  function Lowering(m: Metadata): State {
    Spawned(m).(worker := Lower, stopped := true, reporter := Done)
  }

  lemma ReachesLowering(m: Metadata)
    requires m.stages == 0 && !m.hasGlobalScript
    ensures Reaches(Initial(), Lowering(m))
  {
    hide Run, Reaches;
    var w, s0 := WorkerStep(m, Success), Spawned(m);
    ReachesSpawned(m);
    SameEntries(m);
    ReachesStep(Initial(), s0, w);
    var s1 := s0.(worker := Lower, stopped := true);
    assert Next(s0, w) == s1;
    ReachesStep(Initial(), s1, ReporterStep);
  }

  lemma ReachesCleared(m: Metadata)
    requires m.stages == 0 && !m.hasGlobalScript
    ensures Reaches(Initial(), Spawned(m).(worker := FinalCheck, arrival := Announce, actions := [], reporter := Done))
  {
    hide Run, Reaches;
    var w, s2 := WorkerStep(m, Success), Lowering(m);
    ReachesLowering(m);
    SameEntries(m);
    ReachesStep(Initial(), s2, Arrive(2, true));
    ReachesStep(Initial(), Next(s2, Arrive(2, true)), ArrivalStep);
    var s4 := s2.(arrival := Append(2));
    assert Next(Next(s2, Arrive(2, true)), ArrivalStep) == s4;
    ReachesStep(Initial(), s4, ArrivalStep);
    var s5 := s2.(arrival := Announce, actions := [1, 2]);
    ReachesStep(Initial(), s5, w);
    var s6 := s5.(worker := Clear, stopped := false);
    assert Next(s5, w) == s6;
    ReachesStep(Initial(), s6, w);
  }

  /** The fault of an arrival is reachable: the queue is cleared between its two reads. */
  lemma EmptyCompare(m: Metadata)
    requires m.stages == 0 && !m.hasGlobalScript
    ensures exists s :: Reaches(Initial(), s) && s.arrival.ArrivalFault?
  {
    hide Run, Reaches;
    var w, s0 := WorkerStep(m, Success), Lowering(m);
    ReachesLowering(m);
    SameEntries(m);
    ReachesStep(Initial(), s0, w);
    var s1 := s0.(worker := Clear, stopped := false);
    assert Next(s0, w) == s1;
    ReachesStep(Initial(), s1, Arrive(2, true));
    var s2 := s1.(arrival := Compare(2, true));
    ReachesStep(Initial(), s2, w);
    var s3 := s2.(worker := FinalCheck, actions := []);
    ReachesStep(Initial(), s3, ArrivalStep);
  }

  lemma ReachesOvertaken(m: Metadata)
    requires m.stages == 0 && !m.hasGlobalScript
    ensures Reaches(Initial(), Overtaken(m))
  {
    hide Run, Reaches;
    var w := WorkerStep(m, Success);
    ReachesCleared(m);
    var s0 := Spawned(m).(worker := FinalCheck, arrival := Announce, actions := [], reporter := Done);
    SameEntries(m);
    ReachesStep(Initial(), s0, w);
    assert Next(s0, w) == s0.(worker := Join);
    ReachesStep(Initial(), s0.(worker := Join), w);
    var s2 := s0.(worker := Finish, reporter := Absent);
    ReachesStep(Initial(), s2, w);
    assert Next(s2, w) == Overtaken(m);
  }

  /** The worker's fault is reachable: queueing, clearing and announcing in this order make it fetch from
      an empty queue. */
  lemma EmptyFetch(m: Metadata)
    requires m.stages == 0 && !m.hasGlobalScript
    ensures exists s :: Reaches(Initial(), s) && s.worker.WorkerFault?
  {
    hide Run, Reaches, LocalNext;
    ReachesOvertaken(m);
    var w, s3 := WorkerStep(m, Success), Overtaken(m);
    ReachesStep(Initial(), s3, ArrivalStep);
    ReachesStep(Initial(), Next(s3, ArrivalStep), w);
    ReachesStep(Initial(), Next(Next(s3, ArrivalStep), w), w);
  }
}
