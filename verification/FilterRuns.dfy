/** Whole runs of the time synchroniser: settling after convergence, links made of genuine
    exchanges and exact tracking of a drifting clock. */
module FilterRuns {
  import opened ClockArithmetic
  import opened Filter
  import opened FilterConvergence
  import opened RealArithmetic
  import opened FilterLock

  const LOCKED_GAIN: real := ALPHA_GAIN_FINAL

  function Power(x: real, n: nat): real {
    if n == 0 then 1.0 else x * Power(x, n - 1)
  }

  lemma PowerShift(q: real, n: nat, x: real)
    ensures Times(Power(q, n), Times(q, x)) == Times(Power(q, n + 1), x)
    ensures Times(Power(q, 0), x) == x
  {
    assert Power(q, n + 1) * x == Power(q, n) * (q * x);
  }

  /** A converged filter whose energy exceeds the noise plateau by at most `excess`. */
  ghost predicate Settling(s: State, truth: real, drift: real, noise: real, excess: real) {
    && Converged(s)
    && Energy(LOCKED_GAIN, s.timeOffset - truth, s.timeSkew - drift) <= Plateau(LOCKED_GAIN, noise) + excess
  }

  /** Up to the given energy the offset error is within `reach`. */
  ghost predicate Confines(energy: real, reach: real) {
    forall e: real, t: real :: Energy(LOCKED_GAIN, e, t) <= energy ==> -reach <= e <= reach
  }

  /** The energy a given excess allows confines the offset error so far inside the outlier gate that no
      honest sample is an outlier. */
  ghost predicate WithinGate(drift: real, noise: real, excess: real, reach: real) {
    && noise >= 0.0
    && excess >= 0.0
    && Confines(Plateau(LOCKED_GAIN, noise) + excess, reach)
    && reach + RealAbs(drift) + noise + 1.0 <= MAX_DEVIATION_SAMPLE as real
  }

  lemma ReachOfEnergy(energy: real, reach: real)
    requires reach >= 0.0
    requires energy <= 0.000006756 * (reach * reach)
    ensures Confines(energy, reach)
  {
    hide Energy;
    forall e: real, t: real | Energy(LOCKED_GAIN, e, t) <= energy ensures -reach <= e <= reach {
      EnergyBoundsOffset(LOCKED_GAIN, e, t);
      assert OffsetWeight(LOCKED_GAIN) >= 0.000006756;
      MulNonNegative(OffsetWeight(LOCKED_GAIN) - 0.000006756, e * e);
      RootBound(e, reach);
    }
  }

  lemma SettlingError(s: State, truth: real, drift: real, noise: real, excess: real, reach: real)
    requires Settling(s, truth, drift, noise, excess)
    requires WithinGate(drift, noise, excess, reach)
    ensures -reach <= s.timeOffset - truth <= reach
  {
    hide Energy, Plateau;
  }

  lemma SettlingSample(exp: real -> real, s: State, p: Packet, truth: real, drift: real, noise: real,
                       excess: real, reach: real)
    requires IsExponential(exp)
    requires Settling(s, truth, drift, noise, excess)
    requires WithinGate(drift, noise, excess, reach)
    requires s.sequence + 1 < TWO_32
    requires Usable(p)
    requires -noise <= OffsetUs(p) as real - (truth + drift) <= noise
    ensures Settling(Step(exp, s, p), truth + drift, drift, noise, Times(Retained(LOCKED_GAIN), excess))
    ensures Step(exp, s, p).sequence == s.sequence + 1 && Step(exp, s, p).highDeviationCount == 0
  {
    hide Energy, Times, Retained, Plateau, NextOffsetError, NextSkewError, Accept, OffsetUs;
    SettlingSampleIsNoOutlier(s, p, truth, drift, noise, excess, reach);
    AcceptInErrorCoordinates(exp, s, OffsetUs(p), truth, drift);
    AcceptCounts(exp, s, OffsetUs(p));
    SettlingEnergy(s.timeOffset - truth, s.timeSkew - drift, OffsetUs(p) as real - (truth + drift), noise, excess);
  }

  lemma SettlingSampleIsNoOutlier(s: State, p: Packet, truth: real, drift: real, noise: real,
                                  excess: real, reach: real)
    requires Settling(s, truth, drift, noise, excess)
    requires WithinGate(drift, noise, excess, reach)
    requires HasTimestamps(p)
    requires -noise <= OffsetUs(p) as real - (truth + drift) <= noise
    ensures !IsOutlier(s, p)
  {
    hide Settling;
    SettlingError(s, truth, drift, noise, excess, reach);
    TruncateError(s.timeOffset);
  }

  /** One sample with bounded noise shrinks the excess over the plateau. */
  lemma SettlingEnergy(e: real, t: real, n: real, noise: real, excess: real)
    requires -noise <= n <= noise
    requires Energy(LOCKED_GAIN, e, t) <= Plateau(LOCKED_GAIN, noise) + excess
    ensures Energy(LOCKED_GAIN, NextOffsetError(LOCKED_GAIN, e, t, n), NextSkewError(LOCKED_GAIN, e, t, n))
         <= Plateau(LOCKED_GAIN, noise) + Times(Retained(LOCKED_GAIN), excess)
  {
    hide Energy, Times, Retained, Plateau, NextOffsetError, NextSkewError;
    NoisySampleContracts(LOCKED_GAIN, e, t, n, noise);
    ExcessShrinks(LOCKED_GAIN, Energy(LOCKED_GAIN, e, t), Plateau(LOCKED_GAIN, noise), excess);
  }

  lemma ExcessShrinks(a: real, energy: real, plateau: real, excess: real)
    requires 0.0 < a < 1.0
    requires energy <= plateau + excess
    ensures Times(Retained(a), energy) + Times(1.0 - Retained(a), plateau)
         <= plateau + Times(Retained(a), excess)
  {
    RetainedIsShare(a);
    MulNonNegative(Retained(a), plateau + excess - energy);
  }

  /** After convergence an honest link stays locked, its first sample clears pending outliers, and what
      the energy exceeds the noise plateau by shrinks geometrically with every accepted sample. */
  lemma {:induction false} ConvergedLinkSettles(exp: real -> real, s: State, packets: seq<Packet>, truth: real,
                                                drift: real, noise: real, excess: real, reach: real)
    requires IsExponential(exp)
    requires Settling(s, truth, drift, noise, excess)
    requires WithinGate(drift, noise, excess, reach)
    requires HonestStream(packets, truth, drift, noise)
    requires s.sequence + CountUsable(packets) < TWO_32
    ensures var s', n := Run(exp, s, packets), CountUsable(packets);
            && s'.sequence == s.sequence + n
            && (if n > 0 then s'.highDeviationCount == 0 else s' == s)
            && Settling(s', TruthAfter(truth, drift, n), drift, noise,
                        Times(Power(Retained(LOCKED_GAIN), n), excess))
            && -reach <= s'.timeOffset - TruthAfter(truth, drift, n) <= reach
    decreases packets
  {
    hide Settling, WithinGate, Retained, Step, Power, Times, TruthAfter, OffsetUs, Usable;
    if packets == [] {
      TruthShift(truth, drift, 0);
      PowerShift(Retained(LOCKED_GAIN), 0, excess);
      SettlingError(s, truth, drift, noise, excess, reach);
    } else {
      var p, rest, q := packets[0], packets[1..], Retained(LOCKED_GAIN);
      if Usable(p) {
        SettlingSample(exp, s, p, truth, drift, noise, excess, reach);
        RetainedIsShare(LOCKED_GAIN);
        SmallerExcess(drift, noise, excess, reach, q);
        ConvergedLinkSettles(exp, Step(exp, s, p), rest, truth + drift, drift, noise, Times(q, excess), reach);
        TruthShift(truth, drift, CountUsable(rest));
        PowerShift(q, CountUsable(rest), excess);
      } else {
        IgnoredPacket(exp, s, p);
        ConvergedLinkSettles(exp, s, rest, truth, drift, noise, excess, reach);
      }
    }
  }

  lemma IgnoredPacket(exp: real -> real, s: State, p: Packet)
    requires !Usable(p)
    ensures Step(exp, s, p) == s
  {
  }

  lemma SmallerExcess(drift: real, noise: real, excess: real, reach: real, q: real)
    requires 0.0 < q < 1.0
    requires WithinGate(drift, noise, excess, reach)
    ensures WithinGate(drift, noise, Times(q, excess), reach)
  {
    MulNonNegative(q, excess);
    MulNonNegative(1.0 - q, excess);
  }

  /** From the 251st sample on, what a cold start leaves above the noise plateau shrinks geometrically. */
  lemma HonestLinkSettles(exp: real -> real, s: State, packets: seq<Packet>, truth: real, drift: real, noise: real)
    requires IsExponential(exp)
    requires 0.0 <= noise <= 1200.0
    requires -noise <= 16.0 * drift <= noise
    requires Tracking(exp, s, truth, drift, noise)
    requires s.sequence > CONVERGENCE_WINDOW
    requires HonestStream(packets, truth, drift, noise)
    requires s.sequence + CountUsable(packets) < TWO_32
    ensures var n := CountUsable(packets);
            && Run(exp, s, packets).highDeviationCount == 0
            && Run(exp, s, packets).sequence == s.sequence + n
            && Settling(Run(exp, s, packets), TruthAfter(truth, drift, n), drift, noise,
                     Times(Power(Retained(LOCKED_GAIN), n), 0.04233072 * (noise * noise)))
  {
    var excess := 0.04233072 * (noise * noise);
    assert Plateau(LOCKED_GAIN, noise) == 0.000036054 * (noise * noise);
    assert (80.0 * noise) * (80.0 * noise) == 6400.0 * (noise * noise);
    ReachOfEnergy(Plateau(LOCKED_GAIN, noise) + excess, 80.0 * noise);
    TrackedExcess(exp, s, truth, drift, noise);
    ConvergedLinkSettles(exp, s, packets, truth, drift, noise, excess, 80.0 * noise);
  }

  lemma {:induction false} HonestSplit(before: seq<Packet>, after: seq<Packet>, truth: real, drift: real, noise: real)
    requires HonestStream(before + after, truth, drift, noise)
    ensures HonestStream(before, truth, drift, noise)
    ensures HonestStream(after, TruthAfter(truth, drift, CountUsable(before)), drift, noise)
    ensures CountUsable(before + after) == CountUsable(before) + CountUsable(after)
    decreases before
  {
    hide OffsetUs, Usable, TruthAfter;
    if before == [] {
      assert before + after == after;
      TruthShift(truth, drift, 0);
    } else {
      var p, rest := before[0], before[1..];
      assert (before + after)[0] == p && (before + after)[1..] == rest + after;
      if Usable(p) {
        HonestSplit(rest, after, truth + drift, drift, noise);
        TruthShift(truth, drift, CountUsable(rest));
      } else {
        HonestSplit(rest, after, truth, drift, noise);
      }
    }
  }

  /** End to end: on an honest link a fresh filter converges, and once more than 250 usable packets have
      come in, its error form decays geometrically to the noise plateau with every further one. */
  lemma ColdStartSettles(exp: real -> real, before: seq<Packet>, after: seq<Packet>,
                         truth: real, drift: real, noise: real)
    requires IsExponential(exp)
    requires 0.0 <= noise <= 1200.0
    requires -noise <= 16.0 * drift <= noise
    requires HonestStream(before + after, truth, drift, noise)
    requires CountUsable(before) > CONVERGENCE_WINDOW
    requires CountUsable(before + after) < TWO_32
    ensures var s', n := Run(exp, Reset(), before + after), CountUsable(after);
            && s'.sequence == CountUsable(before + after)
            && s'.highDeviationCount == 0
            && Settling(s', TruthAfter(truth, drift, CountUsable(before + after)), drift, noise,
                        Times(Power(Retained(LOCKED_GAIN), n), 0.04233072 * (noise * noise)))
  {
    hide Tracking, Settling, HonestStream, Run, Power, Retained, Times;
    HonestSplit(before, after, truth, drift, noise);
    ResetTracks(exp, truth, drift, noise);
    HonestLinkKeepsLock(exp, Reset(), before, truth, drift, noise);
    var middle := TruthAfter(truth, drift, CountUsable(before));
    HonestLinkSettles(exp, Run(exp, Reset(), before), after, middle, drift, noise);
    RunAppend(exp, Reset(), before, after);
    TruthSum(truth, drift, CountUsable(before), CountUsable(after));
  }

  lemma TruthSum(truth: real, drift: real, m: nat, n: nat)
    ensures TruthAfter(TruthAfter(truth, drift, m), drift, n) == TruthAfter(truth, drift, m + n)
  {
  }

  lemma TrackedExcess(exp: real -> real, s: State, truth: real, drift: real, noise: real)
    requires Tracking(exp, s, truth, drift, noise)
    requires s.sequence > CONVERGENCE_WINDOW
    ensures Settling(s, truth, drift, noise, 0.04233072 * (noise * noise))
  {
    hide Energy;
    var w := Energy(LOCKED_GAIN, s.timeOffset - truth, s.timeSkew - drift);
    assert Level(LOCKED_GAIN, s.timeOffset - truth, s.timeSkew - drift) == 0.015 * w;
    assert Plateau(LOCKED_GAIN, noise) == 0.000036054 * (noise * noise);
  }

  /** Every usable packet is a genuine exchange with a remote clock that lags by `lagNs`, with a
      measured round trip of at most `maxRtt`; the delay may be split between the two directions
      in any way, differently for every packet. */
  ghost predicate GenuineLink(packets: seq<Packet>, lagNs: int, maxRtt: nat) {
    forall i :: 0 <= i < |packets| && Usable(packets[i]) ==>
      && RttUs(packets[i]) <= maxRtt
      && exists outbound: nat, inbound: nat :: Exchange(packets[i], lagNs, outbound, inbound)
  }

  lemma GenuineSample(p: Packet, lagNs: int, maxRtt: nat, noise: real)
    requires Usable(p) && RttUs(p) <= maxRtt
    requires exists outbound: nat, inbound: nat :: Exchange(p, lagNs, outbound, inbound)
    requires 1000.0 * noise >= (500 * maxRtt + 2000) as real
    ensures -noise <= OffsetUs(p) as real - lagNs as real / 1000.0 <= noise
  {
    var outbound: nat, inbound: nat :| Exchange(p, lagNs, outbound, inbound);
    SampleAccuracy(p, lagNs, outbound, inbound);
  }

  lemma {:induction false} GenuineLinkIsHonest(packets: seq<Packet>, lagNs: int, maxRtt: nat, noise: real)
    requires GenuineLink(packets, lagNs, maxRtt)
    requires 1000.0 * noise >= (500 * maxRtt + 2000) as real
    ensures HonestStream(packets, lagNs as real / 1000.0, 0.0, noise)
    decreases packets
  {
    if packets != [] {
      if Usable(packets[0]) {
        GenuineSample(packets[0], lagNs, maxRtt, noise);
      }
      forall i | 0 <= i < |packets[1..]| && Usable(packets[1..][i])
        ensures RttUs(packets[1..][i]) <= maxRtt
        ensures exists outbound: nat, inbound: nat :: Exchange(packets[1..][i], lagNs, outbound, inbound)
      {
        assert packets[1..][i] == packets[i + 1];
      }
      GenuineLinkIsHonest(packets[1..], lagNs, maxRtt, noise);
    }
  }

  /** Convergence on a genuine link, for every round trip that passes the gate: the first 250 usable
      packets are all accepted, the filter converges with the 250th and not before, and no outlier is
      counted. */
  lemma GenuineLinkConverges(exp: real -> real, packets: seq<Packet>, lagNs: int)
    requires IsExponential(exp)
    requires GenuineLink(packets, lagNs, MAX_RTT_SAMPLE)
    requires CountUsable(packets) <= CONVERGENCE_WINDOW
    ensures var s := Run(exp, Reset(), packets);
            && s.sequence == CountUsable(packets)
            && s.highDeviationCount == 0
            && (Converged(s) <==> CountUsable(packets) == CONVERGENCE_WINDOW)
            && (CountUsable(packets) > 0 ==>
                  RealAbs(1000.0 * s.timeOffset - lagNs as real) <= 400_160_000.0)
  {
    var truth := lagNs as real / 1000.0;
    GenuineLinkIsHonest(packets, lagNs, MAX_RTT_SAMPLE, 5002.0);
    ResetTracks(exp, truth, 0.0, 5002.0);
    HonestLinkKeepsLock(exp, Reset(), packets, truth, 0.0, 5002.0);
    assert TruthAfter(truth, 0.0, CountUsable(packets)) == truth;
  }

  /** Cold start on a genuine link: with round trips up to 2396 microseconds a fresh filter accepts
      every usable packet, converges after exactly 250 of them and is never reset. */
  lemma GenuineColdStart(exp: real -> real, packets: seq<Packet>, lagNs: int)
    requires IsExponential(exp)
    requires GenuineLink(packets, lagNs, 2396)
    requires CountUsable(packets) < TWO_32
    ensures var s := Run(exp, Reset(), packets);
            && s.sequence == CountUsable(packets)
            && s.highDeviationCount == 0
            && (Converged(s) <==> CountUsable(packets) >= CONVERGENCE_WINDOW)
            && (CountUsable(packets) > 0 ==>
                  RealAbs(1000.0 * s.timeOffset - lagNs as real) <= 96_000_000.0)
  {
    var truth := lagNs as real / 1000.0;
    GenuineLinkIsHonest(packets, lagNs, 2396, 1200.0);
    ResetTracks(exp, truth, 0.0, 1200.0);
    HonestLinkKeepsLock(exp, Reset(), packets, truth, 0.0, 1200.0);
    assert TruthAfter(truth, 0.0, CountUsable(packets)) == truth;
  }

  /** A settled filter on a genuine link stays locked whatever the round trips that pass the gate:
      no usable packet is an outlier, no reset happens and the error stays under 12 ms. */
  lemma GenuineLinkStaysLocked(exp: real -> real, s: State, packets: seq<Packet>, lagNs: int)
    requires IsExponential(exp)
    requires GenuineLink(packets, lagNs, MAX_RTT_SAMPLE)
    requires Settling(s, lagNs as real / 1000.0, 0.0, 5002.0, 0.0)
    requires s.sequence + CountUsable(packets) < TWO_32
    ensures var s' := Run(exp, s, packets);
            && s'.sequence == s.sequence + CountUsable(packets)
            && (if CountUsable(packets) > 0 then s'.highDeviationCount == 0 else s' == s)
            && Settling(s', lagNs as real / 1000.0, 0.0, 5002.0, 0.0)
            && RealAbs(1000.0 * s'.timeOffset - lagNs as real) <= 12_000_000.0
  {
    var truth := lagNs as real / 1000.0;
    GenuineLinkIsHonest(packets, lagNs, MAX_RTT_SAMPLE, 5002.0);
    ReachOfEnergy(Plateau(LOCKED_GAIN, 5002.0), 12000.0);
    ConvergedLinkSettles(exp, s, packets, truth, 0.0, 5002.0, 0.0, 12000.0);
    assert TruthAfter(truth, 0.0, CountUsable(packets)) == truth;
  }

  /** Filter updates alone, with the gain left as it is. */
  function AddSamples(s: State, samples: seq<real>): State
    decreases samples
  {
    if samples == [] then s else AddSamples(AddSample(s, samples[0]).(sequence := s.sequence + 1), samples[1..])
  }

  /** The samples lie exactly on the line truth + drift, truth + 2 * drift, ... */
  ghost predicate OnLine(samples: seq<real>, truth: real, drift: real) {
    forall k :: 0 <= k < |samples| ==> samples[k] == TruthAfter(truth, drift, k + 1)
  }

  /** On a linearly drifting clock every exact sample multiplies the energy by exactly 1 - a. */
  lemma {:induction false} DriftEnergy(s: State, samples: seq<real>, truth: real, drift: real)
    requires s.alpha == s.beta
    requires s.sequence > 0
    requires OnLine(samples, truth, drift)
    ensures var a, s', truth' := s.alpha, AddSamples(s, samples), TruthAfter(truth, drift, |samples|);
            Energy(a, s'.timeOffset - truth', s'.timeSkew - drift)
            == Times(Power(1.0 - a, |samples|), Energy(a, s.timeOffset - truth, s.timeSkew - drift))
    decreases samples
  {
    hide Power, Times, TruthAfter, Energy;
    var a := s.alpha;
    if samples == [] {
      TruthShift(truth, drift, 0);
      PowerShift(1.0 - a, 0, Energy(a, s.timeOffset - truth, s.timeSkew - drift));
    } else {
      var s', rest := AddSample(s, samples[0]).(sequence := s.sequence + 1), samples[1..];
      ExactSample(s, samples, truth, drift);
      forall k | 0 <= k < |rest| ensures rest[k] == TruthAfter(truth + drift, drift, k + 1) {
        TruthShift(truth, drift, k + 1);
      }
      DriftEnergy(s', rest, truth + drift, drift);
      TruthShift(truth, drift, |rest|);
      PowerShift(1.0 - a, |rest|, Energy(a, s.timeOffset - truth, s.timeSkew - drift));
    }
  }

  /** No steady-state lag: for every constant gain a, the squared offset error on a linearly
      drifting clock dies out like the n-th power of 1 - a. */
  lemma DriftIsTracked(s: State, samples: seq<real>, truth: real, drift: real)
    requires 0.0 < s.alpha == s.beta < 1.0
    requires s.sequence > 0
    requires OnLine(samples, truth, drift)
    ensures var a, error := s.alpha, AddSamples(s, samples).timeOffset - TruthAfter(truth, drift, |samples|);
            Times(OffsetWeight(a), Times(error, error))
            <= Times(Power(1.0 - a, |samples|), Energy(a, s.timeOffset - truth, s.timeSkew - drift))
  {
    hide Times, Energy, TruthAfter, AddSamples, Power, OffsetWeight;
    DriftEnergy(s, samples, truth, drift);
    var s' := AddSamples(s, samples);
    EnergyControlsError(s.alpha, s'.timeOffset - TruthAfter(truth, drift, |samples|), s'.timeSkew - drift);
  }

  lemma EnergyControlsError(a: real, e: real, t: real)
    requires 0.0 < a < 1.0
    ensures Times(OffsetWeight(a), Times(e, e)) <= Energy(a, e, t)
  {
    EnergyBoundsOffset(a, e, t);
  }

  lemma ExactSample(s: State, samples: seq<real>, truth: real, drift: real)
    requires s.alpha == s.beta
    requires s.sequence > 0
    requires samples != [] && OnLine(samples, truth, drift)
    ensures var a, s' := s.alpha, AddSample(s, samples[0]);
            && s'.alpha == s'.beta == a
            && Energy(a, s'.timeOffset - (truth + drift), s'.timeSkew - drift)
               == Times(1.0 - a, Energy(a, s.timeOffset - truth, s.timeSkew - drift))
  {
    hide Energy, Times;
    var e, t := s.timeOffset - truth, s.timeSkew - drift;
    TruthShift(truth, drift, 0);
    assert samples[0] == TruthAfter(truth, drift, 1) == truth + drift;
    ErrorAlgebra(s.alpha, s.timeOffset, s.timeSkew, samples[0], truth, drift, e, t, 0.0);
    var s' := AddSample(s, samples[0]);
    assert s'.timeOffset - (truth + drift) == NextOffsetError(s.alpha, e, t, 0.0);
    assert s'.timeSkew - drift == NextSkewError(s.alpha, e, t, 0.0);
    ExactSampleContracts(s.alpha, e, t);
  }
}
