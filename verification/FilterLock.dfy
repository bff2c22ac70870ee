/** An honest link never loses lock, from the very first packet on.

    The true offset may drift by a constant amount per accepted sample; every sample lies within
    `noise` microseconds of the truth; packets that fail the timestamp or round-trip gate are
    arbitrary and may be interleaved anywhere. */
module FilterLock {
  import opened ClockArithmetic
  import opened Filter
  import opened FilterConvergence
  import opened RealArithmetic
  import opened GainSchedule

  /** The usable packets of the stream follow the line truth + drift, truth + 2 * drift, ... */
  ghost predicate HonestStream(packets: seq<Packet>, truth: real, drift: real, noise: real)
    decreases packets
  {
    packets != [] ==>
      if Usable(packets[0]) then
        && -noise <= OffsetUs(packets[0]) as real - (truth + drift) <= noise
        && HonestStream(packets[1..], truth + drift, drift, noise)
      else
        HonestStream(packets[1..], truth, drift, noise)
  }

  function TruthAfter(truth: real, drift: real, n: nat): real {
    truth + drift * n as real
  }

  lemma TruthShift(truth: real, drift: real, n: nat)
    ensures TruthAfter(truth, drift, n + 1) == TruthAfter(truth + drift, drift, n)
    ensures TruthAfter(truth, drift, 0) == truth
  {
  }

  /** The energy, weighted so that a falling gain never raises it. */
  function Level(a: real, e: real, t: real): real {
    Times(a + 0.012, Energy(a, e, t))
  }

  function Ceiling(noise: real): real {
    0.0006355 * (noise * noise)
  }

  ghost predicate Tracking(exp: real -> real, s: State, truth: real, drift: real, noise: real) {
    && s.highDeviationCount == 0
    && (s.sequence == 0 ==> s.timeSkew == 0.0)
    && (s.sequence > 0 ==>
          Level(Gain(exp, s.sequence - 1), s.timeOffset - truth, s.timeSkew - drift) <= Ceiling(noise))
  }

  /** The discriminant that makes the level monotone in the gain; s and p are the sum and the
      product of two gains. */
  lemma LevelDiscriminant(s: real, p: real, k: real, l: real, m: real)
    requires 0.006 <= s <= 0.1
    requires 0.0 <= 4.0 * p <= s * s
    requires k == s * s - p + 0.012 * s
    requires l == s - s * s + p + 0.012 * (1.0 - s)
    requires m == 0.988 - s
    ensures m > 0.0 && 4.0 * (k * m) >= l * l
  {
    MulNonNegative(s, s - 0.006);
    MulNonNegative(s, 0.1 - s);
    assert 0.006 * s <= s * s <= 0.1 * s;
    assert k >= 0.75 * (s * s) + 0.012 * s;
    assert 0.0 <= l <= s + 0.012;
    SquareBound(l, s + 0.012);
    assert l * l <= s * s + 0.024 * s + 0.000144;
    assert 3.552 * k >= l * l;
    MulNonNegative(k, m - 0.888);
    assert k * (m - 0.888) == k * m - 0.888 * k;
  }

  /** The coefficients of the difference of two levels, divided by the difference of the gains. */
  predicate Quotient(a: real, b: real, k: real, l: real, m: real) {
    && k == a * a + a * b + b * b + 0.012 * (a + b)
    && l == (a + b) - (a * a + a * b + b * b) + 0.012 * (1.0 - (a + b))
    && m == 0.988 - (a + b)
  }

  lemma QuotientIsPositive(a: real, b: real) returns (k: real, l: real, m: real)
    requires 0.003 <= b <= a <= 0.05
    ensures Quotient(a, b, k, l, m)
    ensures m > 0.0 && 4.0 * (k * m) >= l * l
  {
    k := a * a + a * b + b * b + 0.012 * (a + b);
    l := (a + b) - (a * a + a * b + b * b) + 0.012 * (1.0 - (a + b));
    m := 0.988 - (a + b);
    var s, p := a + b, a * b;
    SquareOfSum(a, b);
    MulNonNegative(a, b);
    LevelDiscriminant(s, p, k, l, m);
  }

  lemma SquareOfSum(a: real, b: real)
    ensures (a + b) * (a + b) - 4.0 * (a * b) >= 0.0
    ensures (a + b) * (a + b) - a * b == a * a + a * b + b * b
  {
    assert (a + b) * (a + b) - 4.0 * (a * b) == (a - b) * (a - b);
    SquareNonNegative(a - b);
  }

  lemma LevelDifference(a: real, b: real, e: real, t: real, k: real, l: real, m: real)
    requires Quotient(a, b, k, l, m)
    ensures Level(a, e, t) - Level(b, e, t) == Times(a - b, Weighted(k, l, m, e * e, e * t, t * t))
  {
    LevelCoefficients(a, e * e, e * t, t * t);
    LevelCoefficients(b, e * e, e * t, t * t);
    CoefficientDifference(a, b, e * e, e * t, t * t, k, l, m);
  }

  function Coefficient(a: real, i: nat): real {
    if i == 0 then a * a * a + 0.012 * (a * a)
    else if i == 1 then a * a - a * a * a + 0.012 * a - 0.012 * (a * a)
    else a - a * a + 0.012 - 0.012 * a
  }

  lemma LevelCoefficients(a: real, ee: real, et: real, tt: real)
    ensures Times(a + 0.012, Weighted(a * a, a * (1.0 - a), 1.0 - a, ee, et, tt))
         == Weighted(Coefficient(a, 0), Coefficient(a, 1), Coefficient(a, 2), ee, et, tt)
  {
  }

  lemma CoefficientDifference(a: real, b: real, ee: real, et: real, tt: real, k: real, l: real, m: real)
    requires Quotient(a, b, k, l, m)
    ensures Weighted(Coefficient(a, 0), Coefficient(a, 1), Coefficient(a, 2), ee, et, tt)
          - Weighted(Coefficient(b, 0), Coefficient(b, 1), Coefficient(b, 2), ee, et, tt)
         == Times(a - b, Weighted(k, l, m, ee, et, tt))
  {
    assert Coefficient(a, 0) - Coefficient(b, 0) == (a - b) * k;
    assert Coefficient(a, 1) - Coefficient(b, 1) == (a - b) * l;
    assert Coefficient(a, 2) - Coefficient(b, 2) == (a - b) * m;
  }

  lemma QuadraticNonNegative(k: real, l: real, m: real, e: real, t: real)
    requires m > 0.0 && 4.0 * (k * m) >= l * l
    ensures Weighted(k, l, m, e * e, e * t, t * t) >= 0.0
  {
    var r, q := 2.0 * m * t - l * e, Weighted(k, l, m, e * e, e * t, t * t);
    assert 4.0 * m * q == r * r + (4.0 * (k * m) - l * l) * (e * e);
    MulNonNegative(4.0 * (k * m) - l * l, e * e);
    if q < 0.0 {
      MulPositive(m, -q);
    }
  }

  /** Lowering the gain within the scheduled range never raises the level. */
  lemma GainDropKeepsLevel(a: real, b: real, e: real, t: real)
    requires 0.003 <= b <= a <= 0.05
    ensures Level(b, e, t) <= Level(a, e, t)
  {
    hide Quotient, Level, Weighted;
    var k, l, m := QuotientIsPositive(a, b);
    LevelDifference(a, b, e, t, k, l, m);
    QuadraticNonNegative(k, l, m, e, t);
    MulNonNegative(a - b, Weighted(k, l, m, e * e, e * t, t * t));
  }

  /** What a sample corrects, whatever the two gains are: the offset moves from its prediction by the share
      alpha of the sample's deviation from it, and the skew by the share beta of what the offset moved
      beyond it. */
  lemma CorrectionRule(s: State, sample: real)
    ensures var s', predicted := AddSample(s, sample), s.timeOffset + s.timeSkew;
            if s.sequence == 0 then s' == s.(timeOffset := sample)
            else
              && s'.timeOffset - predicted == s.alpha * (sample - predicted)
              && s'.timeSkew - s.timeSkew == s.beta * (s'.timeOffset - predicted)
              && s' == s.(timeOffset := s'.timeOffset, timeSkew := s'.timeSkew)
  {
    if s.sequence > 0 {
      var o, k, a, b := s.timeOffset, s.timeSkew, s.alpha, s.beta;
      BlendIsCorrection(a, sample, o + k);
      BlendIsCorrection(b, AddSample(s, sample).timeOffset - o, k);
    }
  }

  lemma BlendIsCorrection(a: real, x: real, y: real)
    ensures a * x + (1.0 - a) * y - y == a * (x - y)
  {
  }

  /** An accepted sample, written in error coordinates. */
  lemma AcceptInErrorCoordinates(exp: real -> real, s: State, offsetUs: int, truth: real, drift: real)
    requires IsExponential(exp)
    requires s.sequence > 0
    ensures var a, s' := Gain(exp, s.sequence), Accept(exp, s, offsetUs);
            var e, t, n := s.timeOffset - truth, s.timeSkew - drift, offsetUs as real - (truth + drift);
            && s'.timeOffset - (truth + drift) == NextOffsetError(a, e, t, n)
            && s'.timeSkew - drift == NextSkewError(a, e, t, n)
  {
    GainNeverRises(exp, s.sequence, s.sequence);
    var a, s' := Gain(exp, s.sequence), Accept(exp, s, offsetUs);
    var e, t, n := s.timeOffset - truth, s.timeSkew - drift, offsetUs as real - (truth + drift);
    ErrorAlgebra(a, s.timeOffset, s.timeSkew, offsetUs as real, truth, drift, e, t, n);
  }

  lemma ErrorAlgebra(a: real, offset: real, skew: real, sample: real, truth: real, drift: real,
                     e: real, t: real, n: real)
    requires e == offset - truth && t == skew - drift && n == sample - (truth + drift)
    ensures var offset' := a * sample + (1.0 - a) * (offset + skew);
            && offset' - (truth + drift) == NextOffsetError(a, e, t, n)
            && a * (offset' - offset) + (1.0 - a) * skew - drift == NextSkewError(a, e, t, n)
  {
    var offset' := a * sample + (1.0 - a) * (offset + skew);
    assert sample == n + truth + drift && offset == e + truth && skew == t + drift;
    assert offset' == a * (n + truth + drift) + (1.0 - a) * (e + truth + t + drift);
    assert offset' - offset == a * n + (1.0 - a) * (e + t) - e + drift;
  }

  /** Below the gain 0.05 the plateau stays under the ceiling. */
  lemma PlateauBelowCeiling(a: real, noise: real)
    requires 0.003 <= a <= 0.05
    ensures Times(a + 0.012, Plateau(a, noise)) <= Ceiling(noise)
  {
    var square, k := noise * noise, (a + 0.012) * (4.0 * (a * a) * (1.0 + a / 2.0));
    MulNonNegative(a, 0.05 - a);
    assert a * a <= 0.0025;
    MulNonNegative(a * a, 0.05 - a);
    assert a * a * a <= 0.000125;
    MulNonNegative(a * a * a, 0.05 - a);
    assert k == 0.048 * (a * a) + 4.024 * (a * a * a) + 2.0 * (a * a * a * a);
    assert k <= 0.0006355;
    MulNonNegative(0.0006355 - k, square);
  }

  lemma LevelAfterSample(a: real, e: real, t: real, n: real, noise: real)
    requires 0.003 <= a <= 0.05
    requires -noise <= n <= noise
    requires Level(a, e, t) <= Ceiling(noise)
    ensures Level(a, NextOffsetError(a, e, t, n), NextSkewError(a, e, t, n)) <= Ceiling(noise)
  {
    NoisySampleContracts(a, e, t, n, noise);
    PlateauBelowCeiling(a, noise);
    RetainedIsShare(a);
    WeightedAverage(a + 0.012, Retained(a), Energy(a, e, t), Plateau(a, noise),
                    Energy(a, NextOffsetError(a, e, t, n), NextSkewError(a, e, t, n)), Ceiling(noise));
  }

  lemma WeightedAverage(k: real, share: real, x: real, y: real, z: real, bound: real)
    requires k > 0.0 && 0.0 < share < 1.0
    requires Times(k, x) <= bound && Times(k, y) <= bound
    requires z <= Times(share, x) + Times(1.0 - share, y)
    ensures Times(k, z) <= bound
  {
    MulNonNegative(k, share * x + (1.0 - share) * y - z);
    MulNonNegative(share, bound - k * x);
    MulNonNegative(1.0 - share, bound - k * y);
    assert k * (share * x + (1.0 - share) * y) == share * (k * x) + (1.0 - share) * (k * y);
  }

  /** The very first sample after a reset already satisfies the ceiling. */
  lemma FirstSampleLevel(e: real, drift: real, noise: real)
    requires -noise <= e <= noise
    requires -noise <= 16.0 * drift <= noise
    ensures Level(0.05, e, -drift) <= Ceiling(noise)
  {
    SquareBound(e, noise);
    SquareBound(16.0 * drift, noise);
    SquareBound(e + 16.0 * drift, 2.0 * noise);
    assert Energy(0.05, e, -drift) == 0.0025 * (e * e) + 0.0475 * (e * drift) + 0.95 * (drift * drift);
    assert (e + 16.0 * drift) * (e + 16.0 * drift) == e * e + 32.0 * (e * drift) + 256.0 * (drift * drift);
  }

  /** The ceiling confines the estimate to 80 times the noise. */
  lemma OffsetErrorBound(a: real, e: real, t: real, noise: real)
    requires 0.003 <= a <= 0.05
    requires noise >= 0.0
    requires Level(a, e, t) <= Ceiling(noise)
    ensures -80.0 * noise <= e <= 80.0 * noise
  {
    EnergyBoundsOffset(a, e, t);
    ErrorFromLevel(a, Energy(a, e, t), e, noise);
  }

  lemma ErrorFromLevel(a: real, energy: real, e: real, noise: real)
    requires 0.003 <= a <= 0.05
    requires noise >= 0.0
    requires energy >= Times(OffsetWeight(a), e * e)
    requires Times(a + 0.012, energy) <= Ceiling(noise)
    ensures -80.0 * noise <= e <= 80.0 * noise
  {
    SquareFloor(a);
    CeilingOnSquare(a, OffsetWeight(a), energy, e * e, noise * noise);
    assert (80.0 * noise) * (80.0 * noise) == 6400.0 * (noise * noise);
    RootBound(e, 80.0 * noise);
  }

  lemma SquareFloor(a: real)
    requires a >= 0.003
    ensures OffsetWeight(a) >= 0.000006756
  {
    SquareBound(0.003, a);
    MulNonNegative(a * a - 0.000009, 3.0 + a);
  }

  lemma CeilingOnSquare(a: real, k: real, energy: real, square: real, noise: real)
    requires a >= 0.003 && k >= 0.000006756 && square >= 0.0
    requires energy >= Times(k, square)
    requires Times(a + 0.012, energy) <= 0.0006355 * noise
    ensures square <= 6400.0 * noise
  {
    MulNonNegative(k - 0.000006756, square);
    MulNonNegative(a - 0.003, energy);
    assert 0.015 * (0.000006756 * square) <= 0.015 * energy <= 0.0006355 * noise;
  }

  /** The first sample after a reset already satisfies the ceiling, at the initial gain. */
  lemma FirstAcceptLevel(exp: real -> real, s: State, offsetUs: int, truth: real, drift: real, noise: real)
    requires s.sequence == 0 && s.timeSkew == 0.0
    requires -noise <= 16.0 * drift <= noise
    requires -noise <= offsetUs as real - (truth + drift) <= noise
    ensures var s' := Accept(exp, s, offsetUs);
            Level(0.05, s'.timeOffset - (truth + drift), s'.timeSkew - drift) <= Ceiling(noise)
  {
    hide ScheduledGain, Level, Ceiling;
    FirstSampleLevel(offsetUs as real - (truth + drift), drift, noise);
  }

  /** A later sample keeps the level below the ceiling while the gain falls from a to b. */
  lemma LaterSampleLevel(a: real, b: real, e: real, t: real, n: real, noise: real)
    requires 0.003 <= b <= a <= 0.05
    requires -noise <= n <= noise
    requires Level(a, e, t) <= Ceiling(noise)
    ensures Level(b, NextOffsetError(b, e, t, n), NextSkewError(b, e, t, n)) <= Ceiling(noise)
  {
    hide Level, Ceiling;
    GainDropKeepsLevel(a, b, e, t);
    LevelAfterSample(b, e, t, n, noise);
  }

  lemma AcceptCounts(exp: real -> real, s: State, offsetUs: int)
    requires s.sequence + 1 < TWO_32
    ensures var s' := Accept(exp, s, offsetUs);
            s'.sequence == s.sequence + 1 && s'.highDeviationCount == 0
  {
  }

  lemma TrackedErrorBound(exp: real -> real, s: State, truth: real, drift: real, noise: real)
    requires IsExponential(exp)
    requires noise >= 0.0
    requires Tracking(exp, s, truth, drift, noise)
    ensures s.sequence > 0 ==> -80.0 * noise <= s.timeOffset - truth <= 80.0 * noise
  {
    if s.sequence > 0 {
      GainNeverRises(exp, s.sequence - 1, s.sequence - 1);
      OffsetErrorBound(Gain(exp, s.sequence - 1), s.timeOffset - truth, s.timeSkew - drift, noise);
    }
  }

  lemma TrackedSampleIsNoOutlier(exp: real -> real, s: State, p: Packet, truth: real, drift: real, noise: real)
    requires IsExponential(exp)
    requires 0.0 <= noise
    requires Converged(s) ==> noise <= 1200.0
    requires -noise <= 16.0 * drift <= noise
    requires HasTimestamps(p)
    requires Tracking(exp, s, truth, drift, noise)
    requires -noise <= OffsetUs(p) as real - (truth + drift) <= noise
    ensures !IsOutlier(s, p)
  {
    if Converged(s) {
      TrackedErrorBound(exp, s, truth, drift, noise);
      TruncateError(s.timeOffset);
    }
  }

  /** From any tracking state (in particular from a fresh or a reset filter), an honest link with any
      drift up to a sixteenth of the noise per sample keeps the filter tracking: every usable sample is
      accepted, nothing counts as an outlier, no reset happens, and the estimate is never further than
      80 times the noise from the truth. Until convergence the noise may be anything; afterwards it is
      at most 1.2 ms. */
  lemma {:induction false} HonestLinkKeepsLock(exp: real -> real, s: State, packets: seq<Packet>,
                                               truth: real, drift: real, noise: real)
    requires IsExponential(exp)
    requires 0.0 <= noise
    requires noise <= 1200.0 || s.sequence + CountUsable(packets) <= CONVERGENCE_WINDOW
    requires -noise <= 16.0 * drift <= noise
    requires Tracking(exp, s, truth, drift, noise)
    requires HonestStream(packets, truth, drift, noise)
    requires s.sequence + CountUsable(packets) < TWO_32
    ensures var s', truth' := Run(exp, s, packets), TruthAfter(truth, drift, CountUsable(packets));
            && s'.sequence == s.sequence + CountUsable(packets)
            && Tracking(exp, s', truth', drift, noise)
            && (s'.sequence > 0 ==> -80.0 * noise <= s'.timeOffset - truth' <= 80.0 * noise)
    decreases packets
  {
    hide Gain, Level, Accept, Ceiling, OffsetUs, NextOffsetError, NextSkewError;
    if packets == [] {
      TrackedErrorBound(exp, s, truth, drift, noise);
    } else {
      var p, rest := packets[0], packets[1..];
      if Usable(p) {
        TrackedSampleIsNoOutlier(exp, s, p, truth, drift, noise);
        var s' := Accept(exp, s, OffsetUs(p));
        assert Step(exp, s, p) == s';
        AcceptCounts(exp, s, OffsetUs(p));
        if s.sequence == 0 {
          GainNeverRises(exp, 0, 0);
          FirstAcceptLevel(exp, s, OffsetUs(p), truth, drift, noise);
        } else {
          GainNeverRises(exp, s.sequence - 1, s.sequence);
          AcceptInErrorCoordinates(exp, s, OffsetUs(p), truth, drift);
          LaterSampleLevel(Gain(exp, s.sequence - 1), Gain(exp, s.sequence), s.timeOffset - truth,
                           s.timeSkew - drift, OffsetUs(p) as real - (truth + drift), noise);
        }
        HonestLinkKeepsLock(exp, s', rest, truth + drift, drift, noise);
        TruthShift(truth, drift, CountUsable(rest));
      } else {
        HonestLinkKeepsLock(exp, s, rest, truth, drift, noise);
      }
    }
  }

  /** A freshly constructed or reset filter is tracking, whatever the truth is. */
  lemma ResetTracks(exp: real -> real, truth: real, drift: real, noise: real)
    ensures Tracking(exp, Reset(), truth, drift, noise)
  {
  }
}
