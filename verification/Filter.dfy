/** The state of the time synchroniser and the effect of one packet on it, as functions.
    Doubles are reals; the sample counter is the 32-bit counter of the source and wraps. */
module Filter {
  import opened ClockArithmetic

  const ALPHA_GAIN_INITIAL: real := 0.05
  const BETA_GAIN_INITIAL: real := 0.05
  const ALPHA_GAIN_FINAL: real := 0.003
  const BETA_GAIN_FINAL: real := 0.003

  const CONVERGENCE_WINDOW: nat := 250
  const MAX_DEVIATION_SAMPLE: nat := 100 * 1000
  const MAX_CONSECUTIVE_HIGH_DEVIATION: nat := 5
  const TWO_32: int := 0x1_0000_0000

  /** All that is used of the exponential function. */
  ghost predicate IsExponential(f: real -> real) {
    && f(0.0) == 1.0
    && (forall x: real :: f(x) > 0.0)
    && (forall x: real, y: real :: x <= y ==> f(x) <= f(y))
  }

  datatype State = State(
    sequence: nat,
    timeOffset: real,
    timeSkew: real,
    alpha: real,
    beta: real,
    highDeviationCount: nat,
    highRttCount: nat)

  function Reset(): State {
    State(0, 0.0, 0.0, ALPHA_GAIN_INITIAL, BETA_GAIN_INITIAL, 0, 0)
  }

  predicate Converged(s: State) {
    s.sequence >= CONVERGENCE_WINDOW
  }

  /** Sigmoid blend between the initial and the final gain for the given sample number. */
  function ScheduledGain(exp: real -> real, sequence: nat, initial: real, final: real): real {
    if sequence < CONVERGENCE_WINDOW then
      var progress := sequence as real / CONVERGENCE_WINDOW as real;
      var p := 1.0 - exp(0.5 * (1.0 - 1.0 / (1.0 - progress)));
      p * final + (1.0 - p) * initial
    else
      final
  }

  function AddSample(s: State, sample: real): State {
    if s.sequence == 0 then
      s.(timeOffset := sample)
    else
      var timeOffset := s.alpha * sample + (1.0 - s.alpha) * (s.timeOffset + s.timeSkew);
      s.(timeOffset := timeOffset,
         timeSkew := s.beta * (timeOffset - s.timeOffset) + (1.0 - s.beta) * s.timeSkew)
  }

  function Accept(exp: real -> real, s: State, offsetUs: int): State {
    var scheduled := s.(
      alpha := ScheduledGain(exp, s.sequence, ALPHA_GAIN_INITIAL, ALPHA_GAIN_FINAL),
      beta := ScheduledGain(exp, s.sequence, BETA_GAIN_INITIAL, BETA_GAIN_FINAL));
    AddSample(scheduled, offsetUs as real).(
      sequence := (s.sequence + 1) % TWO_32,
      highDeviationCount := 0,
      highRttCount := 0)
  }

  function Deviation(s: State, offsetUs: int): nat {
    IntAbs(Truncate(s.timeOffset) - offsetUs)
  }

  predicate IsOutlier(s: State, p: Packet)
    requires HasTimestamps(p)
  {
    Converged(s) && Deviation(s, OffsetUs(p)) > MAX_DEVIATION_SAMPLE
  }

  function Step(exp: real -> real, s: State, p: Packet): State {
    if !Usable(p) then
      s
    else if IsOutlier(s, p) then
      if s.highDeviationCount + 1 > MAX_CONSECUTIVE_HIGH_DEVIATION then
        Reset()
      else
        s.(highDeviationCount := s.highDeviationCount + 1)
    else
      Accept(exp, s, OffsetUs(p))
  }

  function Run(exp: real -> real, s: State, packets: seq<Packet>): State
    decreases packets
  {
    if packets == [] then s else Run(exp, Step(exp, s, packets[0]), packets[1..])
  }

  function SyncStamp(s: State, usec: UInt64, now: UInt64): UInt64 {
    if Converged(s) then WrapUnsigned(usec + Truncate(s.timeOffset)) else now
  }

  /** Number of packets of a run that pass the gates. */
  function CountUsable(packets: seq<Packet>): nat {
    if packets == [] then 0 else (if Usable(packets[0]) then 1 else 0) + CountUsable(packets[1..])
  }

  lemma {:induction false} RunAppend(exp: real -> real, s: State, before: seq<Packet>, after: seq<Packet>)
    ensures Run(exp, s, before + after) == Run(exp, Run(exp, s, before), after)
    decreases before
  {
    if before == [] {
      assert before + after == after;
    } else {
      assert (before + after)[1..] == before[1..] + after;
      RunAppend(exp, Step(exp, s, before[0]), before[1..], after);
    }
  }
}
