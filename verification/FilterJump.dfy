/** Recovery of a noisy lock from a time jump: the filter is reset by the sixth packet that disagrees and
    then behaves like a fresh one. */
module FilterJump {
  import opened ClockArithmetic
  import opened Filter
  import opened FilterLock
  import opened FilterRuns

  /** The usable packets of the stream are all further from the estimate than the outlier gate allows. */
  predicate FarFrom(s: State, packets: seq<Packet>) {
    forall i :: 0 <= i < |packets| && Usable(packets[i]) ==>
      Deviation(s, OffsetUs(packets[i])) > MAX_DEVIATION_SAMPLE
  }

  lemma {:induction false} ResetStays(exp: real -> real, packets: seq<Packet>)
    requires CountUsable(packets) == 0
    ensures Run(exp, Reset(), packets) == Reset()
    decreases packets
  {
    if packets != [] {
      ResetStays(exp, packets[1..]);
    }
  }

  /** While fewer than six outliers are pending the estimate stands; the sixth resets the filter. */
  lemma {:induction false} FarPackets(exp: real -> real, s: State, packets: seq<Packet>)
    requires Converged(s) && FarFrom(s, packets)
    requires s.highDeviationCount + CountUsable(packets) <= 6 && s.highDeviationCount <= 5
    ensures var n := s.highDeviationCount + CountUsable(packets);
            Run(exp, s, packets) == if n <= 5 then s.(highDeviationCount := n) else Reset()
    decreases packets
  {
    hide Accept, OffsetUs;
    if packets != [] {
      var p, rest := packets[0], packets[1..];
      assert FarFrom(s, rest);
      if Usable(p) {
        assert IsOutlier(s, p);
        if s.highDeviationCount == 5 {
          ResetStays(exp, rest);
        } else {
          FarPackets(exp, s.(highDeviationCount := s.highDeviationCount + 1), rest);
        }
      } else {
        FarPackets(exp, s, rest);
      }
    }
  }

  /** How far the truth is from an estimate before an honest packet must be an outlier, for the first six
      packets of a drifting clock. */
  function JumpSize(drift: real, noise: real): real {
    MAX_DEVIATION_SAMPLE as real + 1.0 + noise + 6.0 * RealAbs(drift)
  }

  lemma {:induction false} HonestIsFar(s: State, packets: seq<Packet>, truth: real, drift: real, noise: real, left: nat)
    requires HonestStream(packets, truth, drift, noise)
    requires CountUsable(packets) <= left
    requires noise >= 0.0
    requires RealAbs(s.timeOffset - truth) > MAX_DEVIATION_SAMPLE as real + 1.0 + noise + left as real * RealAbs(drift)
    ensures FarFrom(s, packets)
    decreases packets
  {
    hide OffsetUs;
    if packets != [] {
      var p, rest := packets[0], packets[1..];
      if Usable(p) {
        OneFar(s, p, truth, drift, noise, left as real * RealAbs(drift), (left - 1) as real * RealAbs(drift));
        HonestIsFar(s, rest, truth + drift, drift, noise, left - 1);
      } else {
        HonestIsFar(s, rest, truth, drift, noise, left);
      }
      forall i | 0 <= i < |packets| && Usable(packets[i])
        ensures Deviation(s, OffsetUs(packets[i])) > MAX_DEVIATION_SAMPLE
      {
        if i > 0 {
          assert packets[i] == rest[i - 1];
        }
      }
    }
  }

  lemma OneFar(s: State, p: Packet, truth: real, drift: real, noise: real, margin: real, rest: real)
    requires HasTimestamps(p)
    requires -noise <= OffsetUs(p) as real - (truth + drift) <= noise
    requires margin == rest + RealAbs(drift) && rest >= 0.0
    requires RealAbs(s.timeOffset - truth) > MAX_DEVIATION_SAMPLE as real + 1.0 + noise + margin
    ensures Deviation(s, OffsetUs(p)) > MAX_DEVIATION_SAMPLE
    ensures RealAbs(s.timeOffset - (truth + drift)) > MAX_DEVIATION_SAMPLE as real + 1.0 + noise + rest
  {
    hide OffsetUs;
    TruncateError(s.timeOffset);
  }

  /** Recovery from a time jump of a converged filter with any noise and any pending outliers: if the new
      truth is further from the estimate than the outlier gate, noise and drift together, the packets up
      to the sixth pending outlier reset the filter, and from there on it follows the new truth like a
      fresh one: it is converged again exactly from the 250th usable packet on. */
  lemma NoisyJumpRecovery(exp: real -> real, s: State, before: seq<Packet>, after: seq<Packet>,
                          truth: real, drift: real, noise: real)
    requires IsExponential(exp)
    requires Converged(s) && s.highDeviationCount <= 5
    requires 0.0 <= noise <= 1200.0
    requires -noise <= 16.0 * drift <= noise
    requires HonestStream(before + after, truth, drift, noise)
    requires RealAbs(s.timeOffset - truth) > JumpSize(drift, noise)
    requires s.highDeviationCount + CountUsable(before) == 6
    requires CountUsable(after) < TWO_32
    ensures var s', n := Run(exp, s, before + after), CountUsable(after);
            var truth' := TruthAfter(truth, drift, CountUsable(before) + n);
            && s'.sequence == n
            && s'.highDeviationCount == 0
            && (Converged(s') <==> n >= CONVERGENCE_WINDOW)
            && (n > 0 ==> -80.0 * noise <= s'.timeOffset - truth' <= 80.0 * noise)
  {
    hide Run, HonestStream, FarFrom, Tracking, TruthAfter, IsExponential;
    HonestSplit(before, after, truth, drift, noise);
    JumpIsFar(s, before, truth, drift, noise);
    FarPackets(exp, s, before);
    RunAppend(exp, s, before, after);
    ResetTracks(exp, TruthAfter(truth, drift, CountUsable(before)), drift, noise);
    HonestLinkKeepsLock(exp, Reset(), after, TruthAfter(truth, drift, CountUsable(before)), drift, noise);
    TruthSum(truth, drift, CountUsable(before), CountUsable(after));
    TrackingCounts(exp, Run(exp, Reset(), after),
                   TruthAfter(TruthAfter(truth, drift, CountUsable(before)), drift, CountUsable(after)), drift, noise);
  }

  lemma TrackingCounts(exp: real -> real, s: State, truth: real, drift: real, noise: real)
    requires Tracking(exp, s, truth, drift, noise)
    ensures s.highDeviationCount == 0
  {
    hide Level;
  }

  lemma JumpIsFar(s: State, packets: seq<Packet>, truth: real, drift: real, noise: real)
    requires HonestStream(packets, truth, drift, noise)
    requires noise >= 0.0 && CountUsable(packets) <= 6
    requires RealAbs(s.timeOffset - truth) > JumpSize(drift, noise)
    ensures FarFrom(s, packets)
  {
    hide HonestStream, FarFrom;
    assert 6 as real * RealAbs(drift) == 6.0 * RealAbs(drift);
    HonestIsFar(s, packets, truth, drift, noise, 6);
  }
}
