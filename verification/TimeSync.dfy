/** The time synchroniser as the object it is: fields updated in place, proved against the functions
    of module Filter. */
module TimeSync {
  import opened ClockArithmetic
  import opened Filter
  import opened FilterHistory
  import opened FilterStamp

  class TimeSync {
    const exp: real -> real
    var sequence: nat
    var timeOffset: real
    var timeSkew: real
    var filterAlpha: real
    var filterBeta: real
    var highDeviationCount: nat
    var highRttCount: nat

    function Contents(): State
      reads this
    {
      State(sequence, timeOffset, timeSkew, filterAlpha, filterBeta, highDeviationCount, highRttCount)
    }

    constructor (exp: real -> real)
      ensures this.exp == exp
      ensures Contents() == Reset()
      ensures Represents(exp, Contents(), [])
    {
      this.exp := exp;
      sequence, timeOffset, timeSkew := 0, 0.0, 0.0;
      filterAlpha, filterBeta := ALPHA_GAIN_INITIAL, BETA_GAIN_INITIAL;
      highDeviationCount, highRttCount := 0, 0;
    }

    method SyncConverged() returns (converged: bool)
      ensures converged <==> Converged(Contents())
    {
      converged := sequence >= CONVERGENCE_WINDOW;
    }

    method ResetFilter()
      modifies this
      ensures Contents() == Reset()
    {
      sequence := 0;
      timeOffset := 0.0;
      timeSkew := 0.0;
      filterAlpha := ALPHA_GAIN_INITIAL;
      filterBeta := BETA_GAIN_INITIAL;
      highDeviationCount := 0;
      highRttCount := 0;
    }

    method AddSample(offsetUs: int)
      modifies this
      ensures Contents() == Filter.AddSample(old(Contents()), offsetUs as real)
    {
      var previous := timeOffset;
      if sequence == 0 {
        timeOffset := offsetUs as real;
      } else {
        timeOffset := filterAlpha * offsetUs as real + (1.0 - filterAlpha) * (timeOffset + timeSkew);
        timeSkew := filterBeta * (timeOffset - previous) + (1.0 - filterBeta) * timeSkew;
      }
    }

    method SyncStamp(usec: UInt64, now: UInt64) returns (stamp: UInt64)
      ensures stamp == Filter.SyncStamp(Contents(), usec, now)
      ensures sequence < 250 ==> stamp == now
      ensures sequence >= 250 ==>
                forall n: int :: CutTo(timeOffset, n) ==> (stamp - usec - n) % 0x1_0000_0000_0000_0000 == 0
    {
      forall n: int | CutTo(timeOffset, n)
        ensures sequence < 250 || (Filter.SyncStamp(Contents(), usec, now) - usec - n) % TWO_64 == 0
      {
        StampRule(Contents(), usec, now, n);
      }
      var converged := SyncConverged();
      if converged {
        stamp := WrapUnsigned(usec + Truncate(timeOffset));
      } else {
        stamp := now;
      }
    }

    /** One packet: the new state is the step of the specification, and it keeps the correspondence
        with the history of outcomes. */
    method Run(p: Packet, ghost log: seq<Outcome>)
      requires Represents(exp, Contents(), log)
      modifies this
      ensures Contents() == Step(exp, old(Contents()), p)
      ensures Represents(exp, Contents(), log + [Verdict(log, old(timeOffset), p)])
    {
      StepRefinesHistory(exp, Contents(), log, p);
      if p.ts1 > 0 && p.tc1 > 0 {
        var offsetUs := OffsetUs(p);
        var deviation := IntAbs(Truncate(timeOffset) - offsetUs);
        var converged := SyncConverged();
        if RttUs(p) < MAX_RTT_SAMPLE {
          if converged && deviation > MAX_DEVIATION_SAMPLE {
            highDeviationCount := highDeviationCount + 1;
            if highDeviationCount > MAX_CONSECUTIVE_HIGH_DEVIATION {
              ResetFilter();
            }
          } else {
            filterAlpha := ScheduledGain(exp, sequence, ALPHA_GAIN_INITIAL, ALPHA_GAIN_FINAL);
            filterBeta := ScheduledGain(exp, sequence, BETA_GAIN_INITIAL, BETA_GAIN_FINAL);
            AddSample(offsetUs);
            sequence := (sequence + 1) % TWO_32;
            highDeviationCount := 0;
            highRttCount := 0;
          }
        }
      }
    }
  }
}
