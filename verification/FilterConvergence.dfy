/** Convergence of the double-exponential filter.

    With a the gain, e the offset error and t the skew error, the quadratic form
    `Energy(a, e, t)` is multiplied by exactly 1 - a by an exact sample; measurement noise n
    adds the vector n * (a, a * a). Everything below follows from that form. */
module FilterConvergence {
  import opened RealArithmetic

  function Energy(a: real, e: real, t: real): real {
    Weighted(a * a, a * (1.0 - a), 1.0 - a, e * e, e * t, t * t)
  }

  function Weighted(p: real, q: real, r: real, ee: real, et: real, tt: real): real {
    p * ee - q * et + r * tt
  }

  /** Multiplication under a name, for bounds that are passed from lemma to lemma. */
  function Times(x: real, y: real): real {
    x * y
  }

  /** The two components of one filter update, in error coordinates. */
  function NextOffsetError(a: real, e: real, t: real, n: real): real {
    (1.0 - a) * (e + t) + a * n
  }

  function NextSkewError(a: real, e: real, t: real, n: real): real {
    t - a * a * (e + t) + a * a * n
  }

  function OffsetWeight(a: real): real {
    a * a * (3.0 + a) / 4.0
  }

  /** The energy is positive definite and controls the offset error. */
  lemma EnergyBoundsOffset(a: real, e: real, t: real)
    requires 0.0 < a < 1.0
    ensures Energy(a, e, t) >= Times(OffsetWeight(a), e * e) >= 0.0
  {
    var r := t - a * e / 2.0;
    assert Energy(a, e, t) == (1.0 - a) * (r * r) + a * a * (3.0 + a) / 4.0 * (e * e);
    assert r * r >= 0.0;
    MulNonNegative(1.0 - a, r * r);
    MulNonNegative(3.0 + a, a * a);
    MulNonNegative(a * a * (3.0 + a) / 4.0, e * e);
  }

  /** An exact sample multiplies the energy by exactly 1 - a. */
  lemma ExactSampleContracts(a: real, e: real, t: real)
    ensures Energy(a, NextOffsetError(a, e, t, 0.0), NextSkewError(a, e, t, 0.0))
         == Times(1.0 - a, Energy(a, e, t))
  {
  }

  lemma ProductOfSum(l: real, m: real, e: real, t: real, f: real, u: real,
                     x: real, y: real, g: real, h: real)
    requires l * m == 1.0
    requires x == e + f && y == t + u && g == l * e - f && h == l * t - u
    ensures x * y + m * (g * h) == (1.0 + l) * (e * t) + (1.0 + m) * (f * u)
  {
    assert m * g == m * (l * e) - m * f;
    assert m * (l * e) == l * m * e;
    assert m * (g * h) == (e - m * f) * h;
    assert (m * f) * (l * t) == l * m * (f * t);
    assert (e - m * f) * h == l * (e * t) - e * u - f * t + m * (f * u);
    assert x * y == e * t + e * u + f * t + f * u;
  }

  /** `Weighted` is linear in its last three arguments. */
  lemma WeightedCombination(p: real, q: real, r: real, l: real, m: real, n: real,
                            a: real, b: real, c: real, d: real,
                            a': real, b': real, c': real, d': real,
                            a'': real, b'': real, c'': real, d'': real)
    requires a + l * b == m * c + n * d
    requires a' + l * b' == m * c' + n * d'
    requires a'' + l * b'' == m * c'' + n * d''
    ensures Weighted(p, q, r, a, a', a'') + l * Weighted(p, q, r, b, b', b'')
         == m * Weighted(p, q, r, c, c', c'') + n * Weighted(p, q, r, d, d', d'')
  {
    assert Weighted(p, q, r, a, a', a'') + l * Weighted(p, q, r, b, b', b'')
        == p * (a + l * b) - q * (a' + l * b') + r * (a'' + l * b'');
    assert m * Weighted(p, q, r, c, c', c'') + n * Weighted(p, q, r, d, d', d'')
        == p * (m * c + n * d) - q * (m * c' + n * d') + r * (m * c'' + n * d'');
  }

  /** Young's inequality for the energy, with weights l and m. */
  lemma EnergyOfSum(a: real, l: real, m: real, e: real, t: real, f: real, u: real)
    requires 0.0 < a < 1.0 && m > 0.0 && l * m == 1.0
    ensures Energy(a, e + f, t + u) <= Times(1.0 + l, Energy(a, e, t)) + Times(1.0 + m, Energy(a, f, u))
  {
    var x, y, g, h, l', m' := e + f, t + u, l * e - f, l * t - u, 1.0 + l, 1.0 + m;
    ProductOfSum(l, m, e, e, f, f, x, x, g, g);
    ProductOfSum(l, m, e, t, f, u, x, y, g, h);
    ProductOfSum(l, m, t, t, u, u, y, y, h, h);
    WeightedCombination(a * a, a * (1.0 - a), 1.0 - a, m, l', m',
                        x * x, g * g, e * e, f * f,
                        x * y, g * h, e * t, f * u,
                        y * y, h * h, t * t, u * u);
    assert Energy(a, x, y) + m * Energy(a, g, h) == l' * Energy(a, e, t) + m' * Energy(a, f, u);
    EnergyBoundsOffset(a, g, h);
    MulNonNegative(m, Energy(a, g, h));
  }

  /** A unit of noise moves the errors by (a, a * a), a vector of energy a to the fourth. */
  lemma NoiseVectorEnergy(a: real, n: real)
    ensures Energy(a, a * n, a * a * n) == Times(a * a * a * a, n * n)
  {
  }

  /** The energy level at which noise of size `noise` and the contraction balance. */
  function Plateau(a: real, noise: real): real {
    4.0 * (a * a) * (1.0 + a / 2.0) * (noise * noise)
  }

  /** The share of the energy that survives one noisy sample. */
  function Retained(a: real): real {
    1.0 - a / 2.0 - a * a / 2.0
  }

  /** One noisy sample pulls the energy toward the plateau. */
  lemma NoisySampleContracts(a: real, e: real, t: real, n: real, noise: real)
    requires 0.0 < a < 1.0
    requires -noise <= n <= noise
    ensures Energy(a, NextOffsetError(a, e, t, n), NextSkewError(a, e, t, n))
         <= Times(Retained(a), Energy(a, e, t)) + Times(1.0 - Retained(a), Plateau(a, noise))
  {
    ExactSampleContracts(a, e, t);
    NoiseAfterContraction(a, Energy(a, e, t),
                          NextOffsetError(a, e, t, 0.0), NextSkewError(a, e, t, 0.0), n, noise);
  }

  lemma NoiseAfterContraction(a: real, before: real, e: real, t: real, n: real, noise: real)
    requires 0.0 < a < 1.0
    requires -noise <= n <= noise
    requires Energy(a, e, t) == Times(1.0 - a, before)
    ensures Energy(a, e + a * n, t + a * a * n)
         <= Times(Retained(a), before) + Times(1.0 - Retained(a), Plateau(a, noise))
  {
    var f, u := a * n, a * a * n;
    EnergyOfSum(a, a / 2.0, 2.0 / a, e, t, f, u);
    NoiseVectorEnergy(a, n);
    SquareBound(n, noise);
    NoiseBelowPlateau(a, Energy(a, f, u), n * n, noise);
    ChainContraction(a, before, Energy(a, e, t));
  }

  lemma ChainContraction(a: real, before: real, exact: real)
    requires exact == Times(1.0 - a, before)
    ensures Times(1.0 + a / 2.0, exact) == Times(Retained(a), before)
  {
  }

  lemma RetainedIsShare(a: real)
    requires 0.0 < a < 1.0
    ensures 0.0 < Retained(a) < 1.0
  {
    SquareBelow(a);
  }

  lemma SquareBelow(a: real)
    requires 0.0 < a < 1.0
    ensures 0.0 < a * a < a
  {
  }

  lemma NoiseBelowPlateau(a: real, energy: real, square: real, noise: real)
    requires 0.0 < a < 1.0
    requires energy == Times(a * a * a * a, square)
    requires 0.0 <= square <= noise * noise
    ensures Times(1.0 + 2.0 / a, energy) <= Times(1.0 - Retained(a), Plateau(a, noise))
  {
    PlateauFactor(a, noise * noise);
    NoiseFactor(a, square);
    MulNonNegative(a * a * a, noise * noise - square);
    MulNonNegative(a * a * a, square);
    ScaleUp(a, Times(a * a * a, noise * noise), Times(a * a * a, square));
  }

  lemma PlateauFactor(a: real, square: real)
    ensures Times(1.0 - Retained(a), 4.0 * (a * a) * (1.0 + a / 2.0) * square)
         == (1.0 + a) * ((a + 2.0) * Times(a * a * a, square))
  {
  }

  lemma NoiseFactor(a: real, square: real)
    requires a > 0.0
    ensures Times(1.0 + 2.0 / a, Times(a * a * a * a, square)) == (a + 2.0) * Times(a * a * a, square)
  {
    var x := Times(a * a * a, square);
    assert Times(a * a * a * a, square) == a * x;
    assert 2.0 / a * (a * x) == 2.0 * x;
  }

  lemma ScaleUp(a: real, x: real, y: real)
    requires a > 0.0 && x >= y >= 0.0
    ensures (1.0 + a) * ((a + 2.0) * x) >= (a + 2.0) * y
  {
    MulNonNegative(a + 2.0, x - y);
    MulNonNegative(a + 2.0, x);
    MulNonNegative(a, (a + 2.0) * x);
  }
}
