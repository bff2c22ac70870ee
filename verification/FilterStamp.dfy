/** What a synchronised stamp is, in integers. */
module FilterStamp {
  import opened ClockArithmetic
  import opened Filter
  import opened FilterConvergence
  import opened FilterRuns

  /** n is x cut to an integer: of the same sign, no larger, and less than one away. */
  predicate CutTo(x: real, n: int) {
    if x >= 0.0 then n as real <= x < n as real + 1.0 else n as real - 1.0 < x <= n as real
  }

  lemma CutIsUnique(x: real, m: int, n: int)
    requires CutTo(x, m) && CutTo(x, n)
    ensures m == n
    ensures x >= 0.0 ==> m >= 0
    ensures x < 0.0 ==> m <= 0
  {
  }

  /** Before convergence a stamp is local time. Afterwards it is the remote time moved by the offset
      estimate, and by nothing else, cut to whole microseconds and modulo 2^64. */
  lemma StampRule(s: State, usec: UInt64, now: UInt64, offsetUs: int)
    requires CutTo(s.timeOffset, offsetUs)
    ensures s.sequence < 250 ==> SyncStamp(s, usec, now) == now
    ensures s.sequence >= 250 ==>
              (SyncStamp(s, usec, now) - usec - offsetUs) % 0x1_0000_0000_0000_0000 == 0
    ensures s.sequence >= 250 && 0 <= usec + offsetUs < 0x1_0000_0000_0000_0000 ==>
              SyncStamp(s, usec, now) == usec + offsetUs
  {
    assert CutTo(s.timeOffset, Truncate(s.timeOffset));
    CutIsUnique(s.timeOffset, offsetUs, Truncate(s.timeOffset));
    if s.sequence >= 250 {
      var sum := usec + offsetUs;
      assert sum == TWO_64 * (sum / TWO_64) + WrapUnsigned(sum);
      MultipleOf(WrapUnsigned(sum) - sum, -(sum / TWO_64));
    }
  }

  lemma MultipleOf(x: int, k: int)
    requires x == k * TWO_64
    ensures x % TWO_64 == 0
  {
  }

  /** Stamps over a genuine link: whatever the skew, every stamp of a settled filter is remote time moved
      by a whole number of microseconds within 12 ms and one microsecond of the true lag. */
  lemma GenuineStamp(exp: real -> real, s: State, packets: seq<Packet>, lagNs: int,
                     usec: UInt64, now: UInt64, offsetUs: int)
    requires IsExponential(exp)
    requires GenuineLink(packets, lagNs, MAX_RTT_SAMPLE)
    requires Settling(s, lagNs as real / 1000.0, 0.0, 5002.0, 0.0)
    requires s.sequence + CountUsable(packets) < TWO_32
    requires CutTo(Run(exp, s, packets).timeOffset, offsetUs)
    ensures -12_001_000 <= 1000 * offsetUs - lagNs <= 12_001_000
    ensures (SyncStamp(Run(exp, s, packets), usec, now) - usec - offsetUs) % 0x1_0000_0000_0000_0000 == 0
  {
    hide Energy, Plateau, Run, GenuineLink;
    GenuineLinkStaysLocked(exp, s, packets, lagNs);
    StampRule(Run(exp, s, packets), usec, now, offsetUs);
  }
}
