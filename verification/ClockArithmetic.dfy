/** The 64-bit arithmetic of TimeSync::run, with every wrap-around written out. */
module ClockArithmetic {

  const TWO_63: int := 0x8000_0000_0000_0000
  const TWO_64: int := 0x1_0000_0000_0000_0000

  type Int64 = x: int | -TWO_63 <= x < TWO_63
  type UInt64 = x: int | 0 <= x < TWO_64

  /** A decoded TIMESYNC message together with the local time of its arrival:
      `ts1` and `tc1` in nanoseconds, `now` in microseconds. */
  datatype Packet = Packet(ts1: Int64, tc1: Int64, now: UInt64)

  const MAX_RTT_SAMPLE: int := 10 * 1000

  function WrapUnsigned(x: int): UInt64 {
    x % TWO_64
  }

  /** Conversion of a 64-bit unsigned value to signed (two's complement). */
  function ToSigned(u: UInt64): Int64 {
    if u < TWO_63 then u else u - TWO_64
  }

  /** Signed division by two as C++ does it: the quotient is truncated toward zero. */
  function HalfTowardZero(x: int): int {
    if x >= 0 then x / 2 else -(-x / 2)
  }

  /** Conversion of a double to an integer type: truncation toward zero. */
  function Truncate(x: real): int {
    if x >= 0.0 then x.Floor else -(-x).Floor
  }

  predicate HasTimestamps(p: Packet) {
    p.ts1 > 0 && p.tc1 > 0
  }

  function OffsetUs(p: Packet): int
    requires HasTimestamps(p)
  {
    HalfTowardZero(ToSigned(WrapUnsigned(WrapUnsigned(p.ts1 / 1000 + p.now) - p.tc1 / 1000 * 2)))
  }

  function RttUs(p: Packet): UInt64
    requires HasTimestamps(p)
  {
    WrapUnsigned(p.now - p.ts1 / 1000)
  }

  /** A packet that passes the timestamp and the round-trip gate. */
  predicate Usable(p: Packet) {
    HasTimestamps(p) && RttUs(p) < MAX_RTT_SAMPLE
  }

  lemma TruncateError(x: real)
    ensures -1.0 < Truncate(x) as real - x < 1.0
    ensures -1.0 * RealAbs(x) <= Truncate(x) as real <= RealAbs(x)
  {
  }

  function RealAbs(x: real): real {
    if x < 0.0 then -x else x
  }

  function IntAbs(x: int): nat {
    if x < 0 then -x else x
  }

  /** The gates admit exactly the packets with both timestamps that come back within the limit:
      an echo whose send time lies in the future wraps to a huge value and is refused. */
  lemma RoundTripGate(p: Packet)
    ensures Usable(p) <==> p.ts1 > 0 && p.tc1 > 0 && 0 <= p.now - p.ts1 / 1000 < 10_000
    ensures Usable(p) ==> RttUs(p) == p.now - p.ts1 / 1000
  {
    if p.ts1 > 0 {
      FutureEchoWraps(p);
    }
  }

  lemma FutureEchoWraps(p: Packet)
    requires p.ts1 > 0
    ensures WrapUnsigned(p.now - p.ts1 / 1000) < 10_000 <==> 0 <= p.now - p.ts1 / 1000 < 10_000
    ensures p.now - p.ts1 / 1000 >= 0 ==> WrapUnsigned(p.now - p.ts1 / 1000) == p.now - p.ts1 / 1000
  {
    var d := p.now - p.ts1 / 1000;
    assert -TWO_63 / 1000 - 1 <= d < TWO_64;
    if d < 0 {
      assert WrapUnsigned(d) == d + TWO_64;
    }
  }

  /** h is half of sum, the remainder cut off toward zero. */
  predicate IsHalf(h: int, sum: int) {
    if sum >= 0 then 0 <= sum - 2 * h <= 1 else 0 <= 2 * h - sum <= 1
  }

  /** The offset expression means what it says exactly when the true sum fits 63 bits plus sign. */
  lemma OffsetIsExact(p: Packet)
    requires HasTimestamps(p)
    ensures var sum := p.ts1 / 1000 + p.now - 2 * (p.tc1 / 1000);
            IsHalf(OffsetUs(p), sum) <==> -TWO_63 <= sum < TWO_63
    ensures p.now < TWO_63 - TWO_63 / 1000 ==>
              IsHalf(OffsetUs(p), p.ts1 / 1000 + p.now - 2 * (p.tc1 / 1000))
  {
    WrapTwice(p.ts1 / 1000 + p.now, p.tc1 / 1000 * 2);
    SignedHalf(p.ts1 / 1000 + p.now - 2 * (p.tc1 / 1000));
  }

  /** Over the range the sums of timestamps span, wrapping is harmless exactly on signed values. */
  lemma SignedHalf(sum: int)
    requires -TWO_63 < sum < TWO_64 + TWO_63
    ensures IsHalf(HalfTowardZero(ToSigned(WrapUnsigned(sum))), sum) <==> -TWO_63 <= sum < TWO_63
  {
    var w := WrapUnsigned(sum);
    assert w == if sum < 0 then sum + TWO_64 else if sum < TWO_64 then sum else sum - TWO_64;
  }

  lemma WrapTwice(x: int, y: int)
    ensures WrapUnsigned(WrapUnsigned(x) - y) == WrapUnsigned(x - y)
  {
    var q := x / TWO_64;
    assert x == q * TWO_64 + WrapUnsigned(x);
    WrapShift(WrapUnsigned(x) - y, q);
  }

  lemma WrapShift(x: int, q: int)
    ensures WrapUnsigned(x + q * TWO_64) == WrapUnsigned(x)
  {
  }

  /** A genuine exchange: the message left at local time `ts1`, reached the remote clock
      `outbound` ns later and came back after another `inbound` ns. The remote clock lags the
      local one by `lagNs`. Any split of the delay between the two directions is allowed. */
  ghost predicate Exchange(p: Packet, lagNs: int, outbound: nat, inbound: nat) {
    && p.ts1 > 0
    && p.tc1 > 0
    && p.tc1 == p.ts1 + outbound - lagNs
    && p.now == (p.ts1 + outbound + inbound) / 1000
  }

  /** Offset error of one sample: at most half the measured round trip plus two microseconds. */
  lemma SampleAccuracy(p: Packet, lagNs: int, outbound: nat, inbound: nat)
    requires Exchange(p, lagNs, outbound, inbound)
    ensures Usable(p) ==>
              IntAbs(1000 * OffsetUs(p) - lagNs) <= 500 * RttUs(p) + 2000
    ensures Usable(p) <==> (p.ts1 + outbound + inbound) / 1000 - p.ts1 / 1000 < 10_000
  {
    RoundTripGate(p);
    OffsetIsExact(p);
    if Usable(p) {
      var sum := p.ts1 / 1000 + p.now - 2 * (p.tc1 / 1000);
      var half := HalfTowardZero(sum);
      assert sum - 1 <= 2 * half <= sum + 1;
    }
  }
}
