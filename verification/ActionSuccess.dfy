/** A fully acknowledged action ends without any assumption about time: the sentinel makes its reporter
    leave, whether or not it saw the raised stop flag. */
module ActionSuccess {
  import opened ActionJoin
  import opened ActionProtocol
  import opened ActionSafety
  import opened ActionTheorems

  /** Every stage of the current action, or its script, has been acknowledged. */
  predicate FullyDone(s: State) {
    HasEntry(s) && !Idle(s.worker) && !Pushing(s.worker) && s.acknowledged == Units(Last(s.metadata))
  }

  lemma LocalKeepsFull(m: Metadata, l: Local, answer: Result)
    requires LocalPoint(l.worker) && AtPoint(m, l) && l.acknowledged == Units(m)
    ensures LocalNext(m, l, answer).acknowledged == Units(m)
  {
    hide Percent, Complete, Ended, Settled;
  }

  lemma WorkerKeepsFull(s: State, m: Metadata, answer: Result)
    requires Invariant(s) && FullyDone(s)
    ensures var s' := WorkerNext(s, m, answer);
            s'.metadata == s.metadata && (s'.worker.Waiting? || FullyDone(s'))
  {
    hide Honest, Monotone, OutcomeAt, Measured;
    if LocalPoint(s.worker) {
      LocalKeepsFull(Last(s.metadata), View(s), answer);
      LocalStaysLocal(Last(s.metadata), View(s), answer);
      hide LocalNext, GlobalNext;
    } else {
      assert !s.worker.Spawn? by {
        SpawnIsNotDone(s);
      }
      hide LocalNext;
    }
  }

  lemma SpawnIsNotDone(s: State)
    requires Invariant(s) && FullyDone(s)
    ensures !s.worker.Spawn?
  {
  }

  lemma OthersKeepFull(s: State, e: Event)
    requires FullyDone(s) && !e.WorkerStep?
    ensures Next(s, e).metadata == s.metadata && FullyDone(Next(s, e))
  {
    hide WorkerNext, ReporterNext, Units, Idle, Pushing;
    if e.ReporterStep? {
      ReporterFrame(s);
    } else {
      CallbackFrame(s, e);
    }
    hide Next;
  }

  lemma StepKeepsFull(s: State, e: Event)
    requires Invariant(s) && FullyDone(s)
    ensures var s' := Next(s, e);
            s'.metadata == s.metadata && (s'.worker.Waiting? || FullyDone(s'))
  {
    hide Invariant, FullyDone;
    if e.WorkerStep? {
      WorkerKeepsFull(s, e.metadata, e.result);
      NextCases(s, e);
    } else {
      OthersKeepFull(s, e);
    }
    hide Next;
  }

  lemma SentinelAtJoin(s: State)
    requires Invariant(s) && FullyDone(s) && s.worker.Join?
    ensures Joining(s) && Last(s.results) == Unknown
  {
    hide Complete, Honest, Monotone;
  }

  /** The worker reaches its join, or has passed it. */
  lemma {:induction false} ReachesJoin(s: State, events: seq<Event>) returns (n: nat)
    requires Invariant(s) && FullyDone(s)
    requires WorkerSteps(events) >= StepsToWaiting(Last(s.metadata), s.worker)
    ensures n <= |events| && Invariant(Run(s, events[..n]))
    ensures var s' := Run(s, events[..n]); s'.worker.Waiting? || (FullyDone(s') && s'.worker.Join?)
    decreases events
  {
    hide Next, Invariant, StepsToWaiting, FullyDone;
    if s.worker.Join? {
      n := 0;
      assert events[..0] == [] && Run(s, []) == s;
    } else {
      DoneIsRunning(s);
      StillToGo(Last(s.metadata), s.worker);
      var e, rest := events[0], events[1..];
      StepKeepsInvariant(s, e);
      StepKeepsFull(s, e);
      if e.WorkerStep? {
        WorkerAdvances(s, e.metadata, e.result);
        assert Next(s, e) == WorkerNext(s, e.metadata, e.result) by {
          NextCases(s, e);
        }
      } else {
        WorkerRests(s, e);
      }
      PrefixShift(s, events);
      if Next(s, e).worker.Waiting? {
        n := 1;
      } else {
        var k := ReachesJoin(Next(s, e), rest);
        n := k + 1;
        assert events[1..][..n - 1] == rest[..k];
      }
    }
  }

  lemma DoneIsRunning(s: State)
    requires FullyDone(s)
    ensures !Idle(s.worker) && s.metadata != []
  {
  }

  /** The worker is at its join with the reporter gone, or one step behind it. */
  predicate Passing(s: State) {
    (s.worker.Join? && s.reporter == Done) || s.worker.Finish?
  }

  function StepsToPass(s: State): nat {
    if s.worker.Join? then 2 else 1
  }

  lemma PassingStep(s: State, e: Event)
    requires Aligned(s) && Passing(s)
    ensures var s' := Next(s, e);
            if e.WorkerStep? then s'.worker.Waiting? || (Passing(s') && StepsToPass(s') < StepsToPass(s))
            else Passing(s') && StepsToPass(s') == StepsToPass(s)
  {
    if !e.WorkerStep? {
      WorkerRests(s, e);
    }
    if s.reporter == Done {
      LeftStep(s, e);
    }
    hide LocalNext;
  }

  /** Two more worker steps end the action. */
  lemma {:induction false} PassesJoin(s: State, events: seq<Event>) returns (n: nat)
    requires Invariant(s) && Passing(s) && WorkerSteps(events) >= StepsToPass(s)
    ensures n <= |events| && Run(s, events[..n]).worker.Waiting?
    decreases events
  {
    hide Next, Invariant, Passing, StepsToPass;
    assert StepsToPass(s) > 0 by {
      PassPositive(s);
    }
    var e, rest := events[0], events[1..];
    InvariantAligned(s);
    StepKeepsInvariant(s, e);
    PassingStep(s, e);
    PrefixShift(s, events);
    if Next(s, e).worker.Waiting? {
      n := 1;
    } else {
      var k := PassesJoin(Next(s, e), rest);
      n := k + 1;
      assert events[1..][..n - 1] == rest[..k];
    }
  }

  lemma PassPositive(s: State)
    ensures StepsToPass(s) > 0
  {
  }

  lemma {:induction false} RunSplit(s: State, before: seq<Event>, after: seq<Event>)
    ensures Run(s, before + after) == Run(Run(s, before), after)
    decreases before
  {
    hide Next;
    if before == [] {
      assert before + after == after;
    } else {
      assert (before + after)[1..] == before[1..] + after;
      RunSplit(Next(s, before[0]), before[1..], after);
    }
  }

  lemma {:induction false} CountSplit(before: seq<Event>, after: seq<Event>)
    ensures WorkerSteps(before + after) == WorkerSteps(before) + WorkerSteps(after)
    ensures ReporterSteps(before + after) == ReporterSteps(before) + ReporterSteps(after)
    decreases before
  {
    if before == [] {
      assert before + after == after;
    } else {
      assert (before + after)[1..] == before[1..] + after;
      CountSplit(before[1..], after);
    }
  }

  lemma BoundOfSteps(m: Metadata, w: Worker)
    ensures StepsToWaiting(m, w) <= 14 + 6 * m.stages
  {
  }

  lemma RoundIsEnough(r: Reporter)
    ensures StepsToLeave(r) <= ROUND
  {
  }

  /** From a join that holds the sentinel: a round of the reporter and two worker steps. */
  lemma EndsFromJoin(s: State, round: seq<Event>, tail: seq<Event>) returns (n: nat)
    requires Invariant(s) && FullyDone(s) && s.worker.Join?
    requires ReporterSteps(round) >= ROUND && WorkerSteps(tail) >= 2
    ensures n <= |round + tail| && Run(s, (round + tail)[..n]).worker.Waiting?
  {
    hide Next, Invariant, FullyDone, Run;
    SentinelAtJoin(s);
    RoundIsEnough(s.reporter);
    SuccessJoinCompletes(s, round);
    var i: nat :| i <= |round| && Joining(Run(s, round[..i])) && Run(s, round[..i]).reporter == Done;
    var events := round + tail;
    RunKeepsInvariant(s, round[..i]);
    CountSplit(round[i..], tail);
    assert Passing(Run(s, round[..i])) && events[i..] == round[i..] + tail && events[..i] == round[..i];
    var k := PassesJoin(Run(s, round[..i]), events[i..]);
    RunSplit(s, events[..i], events[i..][..k]);
    n := i + k;
    assert events[..n] == events[..i] + events[i..][..k];
  }

  /** With no assumption about time, on every run: once all stages of an action (or its script) have been
      acknowledged, six worker steps for every stage and fourteen more, then a round of the reporter, then
      two worker steps bring the worker back to waiting, whatever cancellations, arrivals and further
      steps are interleaved. */
  lemma SuccessfulActionEnds(before: seq<Event>, work: seq<Event>, round: seq<Event>, tail: seq<Event>)
      returns (n: nat)
    requires FullyDone(Run(Initial(), before))
    requires WorkerSteps(work) >= 14 + 6 * Last(Run(Initial(), before).metadata).stages
    requires ReporterSteps(round) >= ROUND && WorkerSteps(tail) >= 2
    ensures n <= |work + round + tail|
    ensures Run(Run(Initial(), before), (work + round + tail)[..n]).worker.Waiting?
  {
    InitialInvariant();
    hide *;
    RunKeepsInvariant(Initial(), before);
    n := DoneActionEnds(Run(Initial(), before), work, round, tail);
  }

  lemma DoneActionEnds(s: State, work: seq<Event>, round: seq<Event>, tail: seq<Event>) returns (n: nat)
    requires Invariant(s) && FullyDone(s)
    requires WorkerSteps(work) >= 14 + 6 * Last(s.metadata).stages
    requires ReporterSteps(round) >= ROUND && WorkerSteps(tail) >= 2
    ensures n <= |work + round + tail| && Run(s, (work + round + tail)[..n]).worker.Waiting?
  {
    hide Invariant, Next, Run, Idle, StepsToWaiting, Joining;
    BoundOfSteps(Last(s.metadata), s.worker);
    var i := ReachesJoin(s, work);
    var events := work + round + tail;
    assert events[..i] == work[..i];
    if Run(s, work[..i]).worker.Waiting? {
      n := i;
    } else {
      CountSplit(work[i..], round);
      var k := EndsFromJoin(Run(s, work[..i]), work[i..] + round, tail);
      assert events[i..] == work[i..] + round + tail;
      RunSplit(s, events[..i], events[i..][..k]);
      n := i + k;
      assert events[..n] == events[..i] + events[i..][..k];
    }
  }
}
