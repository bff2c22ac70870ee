/** The counters of the filter state refine the history of packet outcomes, and the closed form of
    recovery from a time jump. */
module FilterHistory {
  import opened ClockArithmetic
  import opened Filter
  import opened GainSchedule

  datatype Outcome = Ignored | Accepted | Outlier | ResetFilter

  /** Samples accepted since the last reset. */
  function AcceptedSinceReset(log: seq<Outcome>): nat {
    if log == [] then 0 else
      match log[|log| - 1]
      case ResetFilter => 0
      case Accepted => AcceptedSinceReset(log[..|log| - 1]) + 1
      case _ => AcceptedSinceReset(log[..|log| - 1])
  }

  /** Outliers since the last accepted sample or reset. */
  function PendingOutliers(log: seq<Outcome>): nat {
    if log == [] then 0 else
      match log[|log| - 1]
      case ResetFilter => 0
      case Accepted => 0
      case Outlier => PendingOutliers(log[..|log| - 1]) + 1
      case Ignored => PendingOutliers(log[..|log| - 1])
  }

  /** The verdict on a packet, decided from the history and the present estimate alone. */
  function Verdict(log: seq<Outcome>, estimate: real, p: Packet): Outcome {
    if !Usable(p) then
      Ignored
    else if AcceptedSinceReset(log) % 0x1_0000_0000 < 250
            || IntAbs(Truncate(estimate) - OffsetUs(p)) <= 100_000 then
      Accepted
    else if PendingOutliers(log) == 5 then
      ResetFilter
    else
      Outlier
  }

  /** The outcomes of a whole run. */
  function History(exp: real -> real, s: State, log: seq<Outcome>, packets: seq<Packet>): seq<Outcome>
    decreases packets
  {
    if packets == [] then log
    else History(exp, Step(exp, s, packets[0]), log + [Verdict(log, s.timeOffset, packets[0])], packets[1..])
  }

  /** The gain in force after n accepted samples. */
  function GainAfter(exp: real -> real, n: nat): real {
    if n == 0 then ALPHA_GAIN_INITIAL else Gain(exp, (n - 1) % TWO_32)
  }

  ghost predicate Represents(exp: real -> real, s: State, log: seq<Outcome>) {
    var n := AcceptedSinceReset(log);
    && s.sequence == n % TWO_32
    && s.highDeviationCount == PendingOutliers(log) <= MAX_CONSECUTIVE_HIGH_DEVIATION
    && s.alpha == s.beta == GainAfter(exp, n)
    && s.highRttCount == 0
  }

  lemma WrapSuccessor(n: nat)
    ensures (n % TWO_32 + 1) % TWO_32 == (n + 1) % TWO_32
  {
  }

  /** One step keeps the correspondence between state and history. */
  lemma StepRefinesHistory(exp: real -> real, s: State, log: seq<Outcome>, p: Packet)
    requires Represents(exp, s, log)
    ensures Represents(exp, Step(exp, s, p), log + [Verdict(log, s.timeOffset, p)])
  {
    hide IsOutlier, AddSample, OffsetUs;
    var log' := log + [Verdict(log, s.timeOffset, p)];
    assert log'[..|log'| - 1] == log;
    if Usable(p) {
      OutlierMeansFar(s, p);
      if !IsOutlier(s, p) {
        AcceptCounters(exp, s, OffsetUs(p));
        WrapSuccessor(AcceptedSinceReset(log));
      }
    }
  }

  lemma OutlierMeansFar(s: State, p: Packet)
    requires Usable(p)
    ensures IsOutlier(s, p) <==>
              s.sequence >= CONVERGENCE_WINDOW
              && IntAbs(Truncate(s.timeOffset) - OffsetUs(p)) > MAX_DEVIATION_SAMPLE
  {
  }

  lemma AcceptCounters(exp: real -> real, s: State, offsetUs: int)
    ensures var s' := Accept(exp, s, offsetUs);
            && s'.sequence == (s.sequence + 1) % TWO_32
            && s'.highDeviationCount == 0
            && s'.alpha == s'.beta == Gain(exp, s.sequence)
  {
  }

  /** Over every run: converged means at least 250 samples since the last reset (counted modulo
      2^32), the outlier counter is the number of outliers since the last accepted sample and never
      rests above five, and both gains follow the schedule. */
  lemma {:induction false} RunRefinesHistory(exp: real -> real, s: State, log: seq<Outcome>, packets: seq<Packet>)
    requires Represents(exp, s, log)
    ensures var s', log' := Run(exp, s, packets), History(exp, s, log, packets);
            && Represents(exp, s', log')
            && (Converged(s') <==> AcceptedSinceReset(log') % TWO_32 >= CONVERGENCE_WINDOW)
    decreases packets
  {
    if packets != [] {
      hide Represents, Step;
      StepRefinesHistory(exp, s, log, packets[0]);
      RunRefinesHistory(exp, Step(exp, s, packets[0]), log + [Verdict(log, s.timeOffset, packets[0])], packets[1..]);
    }
  }

  /** No packet of the run resets the filter. */
  predicate NeverResets(exp: real -> real, s: State, log: seq<Outcome>, packets: seq<Packet>)
    decreases packets
  {
    packets != [] ==>
      var verdict := Verdict(log, s.timeOffset, packets[0]);
      verdict != ResetFilter && NeverResets(exp, Step(exp, s, packets[0]), log + [verdict], packets[1..])
  }

  lemma {:induction false} AcceptedGrows(exp: real -> real, s: State, log: seq<Outcome>, packets: seq<Packet>)
    requires NeverResets(exp, s, log, packets)
    ensures AcceptedSinceReset(History(exp, s, log, packets)) >= AcceptedSinceReset(log)
    decreases packets
  {
    hide Step, Verdict;
    if packets != [] {
      var log' := log + [Verdict(log, s.timeOffset, packets[0])];
      assert log'[..|log'| - 1] == log;
      AcceptedGrows(exp, Step(exp, s, packets[0]), log', packets[1..]);
    }
  }

  /** Gains over every run: equal, within the configured range, and never higher at the end than at the
      beginning if no packet of the run resets the filter and fewer than 2^32 samples follow the last
      reset. */
  lemma GainsOverRun(exp: real -> real, s: State, log: seq<Outcome>, packets: seq<Packet>)
    requires IsExponential(exp)
    requires Represents(exp, s, log)
    ensures var s', log' := Run(exp, s, packets), History(exp, s, log, packets);
            && ALPHA_GAIN_FINAL <= s'.alpha == s'.beta <= ALPHA_GAIN_INITIAL
            && (NeverResets(exp, s, log, packets) && AcceptedSinceReset(log') <= TWO_32 ==> s'.alpha <= s.alpha)
  {
    hide GainAfter, Run, History, NeverResets;
    RunRefinesHistory(exp, s, log, packets);
    var m, n := AcceptedSinceReset(log), AcceptedSinceReset(History(exp, s, log, packets));
    GainAfterRange(exp, n);
    if NeverResets(exp, s, log, packets) && n <= TWO_32 {
      AcceptedGrows(exp, s, log, packets);
      GainAfterFalls(exp, m, n);
    }
  }

  lemma NoWrap(n: nat)
    requires n < TWO_32
    ensures n % TWO_32 == n
  {
  }

  lemma GainAfterRange(exp: real -> real, n: nat)
    requires IsExponential(exp)
    ensures ALPHA_GAIN_FINAL <= GainAfter(exp, n) <= ALPHA_GAIN_INITIAL
  {
    hide Gain;
    GainNeverRises(exp, 0, 0);
    if n > 0 {
      var k := (n - 1) % TWO_32;
      GainNeverRises(exp, k, k);
    }
  }

  lemma GainAfterFalls(exp: real -> real, m: nat, n: nat)
    requires IsExponential(exp) && m <= n <= TWO_32
    ensures GainAfter(exp, n) <= GainAfter(exp, m)
  {
    hide Gain;
    if m > 0 {
      NoWrap(m - 1);
      NoWrap(n - 1);
      GainNeverRises(exp, m - 1, n - 1);
    } else if n > 0 {
      GainAfterRange(exp, n);
    }
  }

  /** The counter width matters: the 2^32nd sample since a reset takes a converged filter back to
      an unconverged one. */
  lemma CounterWrapLosesConvergence(exp: real -> real, s: State, p: Packet)
    requires s.sequence == TWO_32 - 1
    requires Usable(p) && !IsOutlier(s, p)
    ensures Converged(s) && !Converged(Step(exp, s, p))
    ensures Step(exp, s, p).sequence == 0
  {
  }

  /** All usable packets of the stream carry the same offset. */
  ghost predicate ConstantOffset(packets: seq<Packet>, offsetUs: int) {
    forall i :: 0 <= i < |packets| && Usable(packets[i]) ==> OffsetUs(packets[i]) == offsetUs
  }

  /** Exact lock: after the first sample the estimate is the constant and the skew is zero. */
  predicate ExactLock(s: State, offsetUs: int) {
    && s.timeSkew == 0.0
    && s.highDeviationCount == 0
    && (s.sequence > 0 ==> s.timeOffset == offsetUs as real)
  }

  lemma ExactSampleKeepsLock(exp: real -> real, s: State, offsetUs: int)
    requires ExactLock(s, offsetUs)
    ensures ExactLock(Accept(exp, s, offsetUs), offsetUs)
    ensures Accept(exp, s, offsetUs).timeOffset == offsetUs as real
  {
    hide ScheduledGain;
    var a, c := ScheduledGain(exp, s.sequence, ALPHA_GAIN_INITIAL, ALPHA_GAIN_FINAL), offsetUs as real;
    assert a * c + (1.0 - a) * c == c;
    if s.sequence > 0 {
      assert c + s.timeSkew == c;
    }
  }

  /** Constant samples keep an exact lock over any run. */
  lemma {:induction false} ConstantRun(exp: real -> real, s: State, packets: seq<Packet>, offsetUs: int)
    requires ExactLock(s, offsetUs)
    requires ConstantOffset(packets, offsetUs)
    requires s.sequence + CountUsable(packets) < TWO_32
    ensures var s' := Run(exp, s, packets);
            && ExactLock(s', offsetUs)
            && s'.sequence == s.sequence + CountUsable(packets)
            && (CountUsable(packets) == 0 ==> s' == s)
    decreases packets
  {
    hide Accept, OffsetUs;
    if packets != [] {
      var p, rest := packets[0], packets[1..];
      assert ConstantOffset(rest, offsetUs);
      if Usable(p) {
        assert !IsOutlier(s, p);
        ExactSampleKeepsLock(exp, s, offsetUs);
        AcceptCounters(exp, s, offsetUs);
        ConstantRun(exp, Accept(exp, s, offsetUs), rest, offsetUs);
      } else {
        ConstantRun(exp, s, rest, offsetUs);
      }
    }
  }

  /** The state a locked filter is in after n usable samples that all disagree with its estimate. */
  ghost predicate AfterJump(s: State, s': State, n: nat, pending: nat, offsetUs: int) {
    if n + pending <= 5 then
      s' == s.(highDeviationCount := n + pending)
    else
      && s'.sequence == n + pending - 6
      && s'.timeOffset == (if n + pending == 6 then 0.0 else offsetUs as real)
      && s'.timeSkew == 0.0
      && s'.highDeviationCount == 0
  }

  lemma {:induction false} JumpRun(exp: real -> real, s: State, packets: seq<Packet>, offsetUs: int)
    requires Converged(s) && s.highDeviationCount <= 5
    requires Deviation(s, offsetUs) > MAX_DEVIATION_SAMPLE
    requires ConstantOffset(packets, offsetUs)
    requires CountUsable(packets) < TWO_32
    ensures AfterJump(s, Run(exp, s, packets), CountUsable(packets), s.highDeviationCount, offsetUs)
    decreases packets
  {
    hide Accept, OffsetUs;
    if packets != [] {
      var p, rest := packets[0], packets[1..];
      assert ConstantOffset(rest, offsetUs);
      if Usable(p) {
        assert IsOutlier(s, p);
        if s.highDeviationCount == 5 {
          ConstantRun(exp, Reset(), rest, offsetUs);
        } else {
          JumpRun(exp, s.(highDeviationCount := s.highDeviationCount + 1), rest, offsetUs);
        }
      } else {
        JumpRun(exp, s, rest, offsetUs);
      }
    }
  }

  /** Recovery from a time jump, in closed form. A filter locked exactly on one offset that starts
      to see another, more than 100 ms away, keeps its estimate for five samples, is reset by the
      sixth, and relocks exactly on the new offset 250 samples later, whatever unusable packets are
      interleaved. Stamps are local time from the reset until then. */
  lemma JumpRecovery(exp: real -> real, s: State, packets: seq<Packet>, before: int, after: int,
                     usec: UInt64, now: UInt64)
    requires Converged(s) && ExactLock(s, before)
    requires IntAbs(before - after) > 100_000
    requires ConstantOffset(packets, after)
    requires CountUsable(packets) < TWO_32
    ensures var s', n := Run(exp, s, packets), CountUsable(packets);
            && AfterJump(s, s', n, 0, after)
            && (Converged(s') <==> n <= 5 || n >= 256)
            && SyncStamp(s', usec, now) ==
                 (if n <= 5 then WrapUnsigned(usec + before)
                  else if n < 256 then now
                  else WrapUnsigned(usec + after))
  {
    assert Truncate(before as real) == before && Truncate(after as real) == after;
    JumpRun(exp, s, packets, after);
  }
}
