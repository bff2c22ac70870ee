/** The sigmoid schedule of the filter gains. */
module GainSchedule {
  import opened Filter

  function Gain(exp: real -> real, sequence: nat): real {
    ScheduledGain(exp, sequence, ALPHA_GAIN_INITIAL, ALPHA_GAIN_FINAL)
  }

  /** The exponent the sigmoid is evaluated at. */
  function Exponent(sequence: nat): real
    requires sequence < CONVERGENCE_WINDOW
  {
    0.5 * (1.0 - 1.0 / (1.0 - sequence as real / CONVERGENCE_WINDOW as real))
  }

  lemma Reciprocal(x: real, y: real)
    requires 0.0 < x <= y
    ensures 1.0 / y <= 1.0 / x
  {
    assert 1.0 / x - 1.0 / y == (y - x) / (x * y);
  }

  /** The divisor 1 - progress never vanishes, the exponent starts at zero and only falls. */
  lemma ExponentFalls(m: nat, n: nat)
    requires m <= n < CONVERGENCE_WINDOW
    ensures Exponent(n) <= Exponent(m) <= 0.0
    ensures Exponent(0) == 0.0
    ensures 1.0 - n as real / CONVERGENCE_WINDOW as real > 0.0
  {
    var x, y := 1.0 - m as real / CONVERGENCE_WINDOW as real, 1.0 - n as real / CONVERGENCE_WINDOW as real;
    assert 0.0 < y <= x <= 1.0;
    Reciprocal(y, x);
    Reciprocal(x, 1.0);
  }

  /** The gain starts at its initial value, never rises and never leaves the configured range;
      both gains follow the same schedule. */
  lemma GainNeverRises(exp: real -> real, m: nat, n: nat)
    requires IsExponential(exp)
    requires m <= n
    ensures ALPHA_GAIN_FINAL <= Gain(exp, n) <= Gain(exp, m) <= ALPHA_GAIN_INITIAL
    ensures Gain(exp, 0) == ALPHA_GAIN_INITIAL
    ensures Gain(exp, n) == ScheduledGain(exp, n, BETA_GAIN_INITIAL, BETA_GAIN_FINAL)
  {
    SigmoidRange(exp, 0, 0);
    if n < CONVERGENCE_WINDOW {
      SigmoidRange(exp, m, n);
    } else if m < CONVERGENCE_WINDOW {
      SigmoidRange(exp, m, m);
    }
  }

  lemma SigmoidRange(exp: real -> real, m: nat, n: nat)
    requires IsExponential(exp)
    requires m <= n < CONVERGENCE_WINDOW
    ensures 0.0 < exp(Exponent(n)) <= exp(Exponent(m)) <= 1.0
    ensures exp(Exponent(0)) == 1.0
    ensures Gain(exp, m) == ALPHA_GAIN_FINAL + exp(Exponent(m)) * (ALPHA_GAIN_INITIAL - ALPHA_GAIN_FINAL)
    ensures Gain(exp, n) == ALPHA_GAIN_FINAL + exp(Exponent(n)) * (ALPHA_GAIN_INITIAL - ALPHA_GAIN_FINAL)
  {
    ExponentFalls(m, n);
    assert exp(Exponent(n)) <= exp(Exponent(m)) <= exp(0.0);
  }
}
