/** The horizontal velocity commanded while a landing site is being searched. */
module MissionVelocity {
  import opened MissionTypes
  import opened MissionSteps
  import opened Options
  import opened RealArithmetic

  function Square(v: Velocity): real {
    v.x * v.x + v.y * v.y
  }

  /** `distance` is the Euclidean distance between the vehicle and the override waypoint. */
  predicate Measured(s: State, m: TrajectoryInput) {
    Steers(s, m) ==>
      var dx, dy := m.posX - s.localOverride.value.x, m.posY - s.localOverride.value.y;
      m.distance >= 0.0 && m.distance * m.distance == dx * dx + dy * dy
  }

  /** The unsmoothed velocity is exactly as fast as the search speed, or zero on the waypoint. */
  lemma RawSpeed(s: State, m: TrajectoryInput, speed: real, bound: real)
    requires Steers(s, m) && Measured(s, m)
    requires -bound <= speed <= bound
    ensures Square(RawVelocity(s.localOverride.value, m, speed)) <= bound * bound
  {
    var dx, dy := m.posX - s.localOverride.value.x, m.posY - s.localOverride.value.y;
    SquareBound(speed, bound);
    if m.distance > 0.0 {
      UnitVector(dx, dy, m.distance, speed);
    } else {
      SquareNonNegative(dx);
      SquareNonNegative(dy);
      ZeroVector(dx, dy, speed);
    }
  }

  lemma ZeroVector(dx: real, dy: real, speed: real)
    requires dx * dx == 0.0 && dy * dy == 0.0
    ensures Square(Velocity(dx * speed, dy * speed)) == 0.0
  {
    assert (dx * speed) * (dx * speed) == (dx * dx) * (speed * speed);
    assert (dy * speed) * (dy * speed) == (dy * dy) * (speed * speed);
  }

  lemma UnitVector(dx: real, dy: real, d: real, speed: real)
    requires d > 0.0 && d * d == dx * dx + dy * dy
    ensures Square(Velocity(dx / d * speed, dy / d * speed)) == speed * speed
  {
    var x, y := dx / d, dy / d;
    assert x * d == dx && y * d == dy;
    UnitSquare(x, y, d, dx, dy);
    assert Square(Velocity(x * speed, y * speed)) == (x * x + y * y) * (speed * speed);
  }

  lemma UnitSquare(x: real, y: real, d: real, dx: real, dy: real)
    requires d > 0.0
    requires dx == x * d && dy == y * d && d * d == dx * dx + dy * dy
    ensures x * x + y * y == 1.0
  {
    assert dx * dx == d * (x * dx) && dy * dy == d * (y * dy);
    Cancel(x * dx + y * dy, d, d);
    assert x * dx == d * (x * x) && y * dy == d * (y * y);
    Cancel(x * x + y * y, 1.0, d);
  }

  lemma Cancel(m: real, n: real, d: real)
    requires d > 0.0 && d * m == d * n
    ensures m == n
  {
  }

  function Dot(a: Velocity, b: Velocity): real {
    a.x * b.x + a.y * b.y
  }

  lemma Lagrange(a: Velocity, b: Velocity)
    ensures Dot(a, b) * Dot(a, b) <= Square(a) * Square(b)
    ensures Square(a) >= 0.0 && Square(b) >= 0.0
  {
    var p, q, x, y := a.x, a.y, b.x, b.y;
    SquareNonNegative(p * y - q * x);
    assert (p * x + q * y) * (p * x + q * y) + (p * y - q * x) * (p * y - q * x)
        == (p * p + q * q) * (x * x + y * y);
    SquareNonNegative(p);
    SquareNonNegative(q);
    SquareNonNegative(x);
    SquareNonNegative(y);
  }

  /** Cauchy-Schwarz in the plane, for bounded vectors. */
  lemma InnerProductBound(a: Velocity, b: Velocity, r: real, q: real)
    requires r >= 0.0 && q >= 0.0
    requires Square(a) <= r * r && Square(b) <= q * q
    ensures Dot(a, b) <= r * q
  {
    Lagrange(a, b);
    hide Dot, Square;
    RootOfProduct(Dot(a, b), Square(a), Square(b), r, q);
  }

  lemma RootOfProduct(p: real, x: real, y: real, r: real, q: real)
    requires r >= 0.0 && q >= 0.0
    requires 0.0 <= x <= r * r && 0.0 <= y <= q * q
    requires p * p <= x * y
    ensures p <= r * q
  {
    MulNonNegative(x, q * q - y);
    SquareNonNegative(q);
    MulNonNegative(r * r - x, q * q);
    MulNonNegative(r, q);
    assert (r * q) * (r * q) == (r * r) * (q * q);
    if p > r * q {
      SquareGrows(r * q, p);
    }
  }

  lemma SquareGrows(x: real, y: real)
    requires 0.0 <= x < y
    ensures x * x < y * y
  {
    MulPositive(y - x, y + x);
    assert (y - x) * (y + x) == y * y - x * x;
  }

  /** One smoothing step moves the speed bound a tenth of the way to the new speed. */
  lemma SmoothSpeed(previous: Velocity, raw: Velocity, r: real, q: real)
    requires r >= 0.0 && q >= 0.0
    requires Square(previous) <= r * r && Square(raw) <= q * q
    ensures Square(Smooth(Some(previous), raw)) <= (0.9 * r + 0.1 * q) * (0.9 * r + 0.1 * q)
  {
    InnerProductBound(previous, raw, r, q);
    assert Square(Smooth(Some(previous), raw))
        == 0.81 * Square(previous) + 0.18 * Dot(previous, raw) + 0.01 * Square(raw);
    assert (0.9 * r + 0.1 * q) * (0.9 * r + 0.1 * q) == 0.81 * (r * r) + 0.18 * (r * q) + 0.01 * (q * q);
  }

  /** The bound after k steering messages at speed v, coming from an initial bound. */
  function SpeedBound(initial: real, v: real, k: nat): real {
    v + Decay(k) * (initial - v)
  }

  function Decay(k: nat): real {
    if k == 0 then 1.0 else 0.9 * Decay(k - 1)
  }

  lemma DecayRange(k: nat)
    ensures 0.0 < Decay(k) <= 1.0
  {
  }

  lemma SpeedBoundStep(initial: real, v: real, k: nat)
    ensures SpeedBound(initial, v, k + 1) == 0.9 * SpeedBound(initial, v, k) + 0.1 * v
    ensures SpeedBound(initial, v, 0) == initial
    ensures 0.0 <= v <= initial ==> v <= SpeedBound(initial, v, k) <= initial
  {
    DecayRange(k);
    if 0.0 <= v <= initial {
      MulNonNegative(Decay(k), initial - v);
      MulNonNegative(1.0 - Decay(k), initial - v);
    }
  }

  /** Number of messages of a run that are answered with a search velocity. */
  function SteeringMessages(s: State, events: seq<Event>): nat
    decreases events
  {
    if events == [] then 0
    else
      (if events[0].Trajectory? && Steers(s, events[0].trajectory) then 1 else 0)
      + SteeringMessages(Next(s, events[0]), events[1..])
  }

  /** Every steering message of the run is answered at a search speed within v, with a true distance. */
  ghost predicate SpeedsWithin(s: State, events: seq<Event>, v: real)
    decreases events
  {
    events != [] ==>
      && (events[0].Trajectory? && Steers(s, events[0].trajectory) ==>
            && -v <= s.config.landingSiteSearchSpeed <= v
            && Measured(s, events[0].trajectory))
      && SpeedsWithin(Next(s, events[0]), events[1..], v)
  }

  predicate SmoothedWithin(s: State, bound: real) {
    s.smoothed.Some? ==> Square(s.smoothed.value) <= bound * bound
  }

  lemma SmoothedStep(s: State, e: Event, r: real, v: real)
    requires 0.0 <= v <= r
    requires e.Trajectory? && Steers(s, e.trajectory) ==>
               -v <= s.config.landingSiteSearchSpeed <= v && Measured(s, e.trajectory)
    requires SmoothedWithin(s, r)
    ensures if e.Trajectory? && Steers(s, e.trajectory)
            then SmoothedWithin(Next(s, e), 0.9 * r + 0.1 * v)
            else Next(s, e).smoothed == s.smoothed
  {
    hide UpdateSearch, React, Square, Smooth, RawVelocity;
    if e.Trajectory? && Steers(s, e.trajectory) {
      var raw := RawVelocity(s.localOverride.value, e.trajectory, s.config.landingSiteSearchSpeed);
      RawSpeed(s, e.trajectory, s.config.landingSiteSearchSpeed, v);
      assert Next(s, e).smoothed == Some(Smooth(s.smoothed, raw));
      if s.smoothed.Some? {
        SmoothSpeed(s.smoothed.value, raw, r, v);
      } else {
        FirstMessage(raw, r, v);
      }
    } else if e.Tick? {
      TickKeepsVelocity(s, e.input);
    }
  }

  lemma FirstMessage(raw: Velocity, r: real, v: real)
    requires 0.0 <= v <= r
    requires Square(raw) <= v * v
    ensures Square(Smooth(None, raw)) <= (0.9 * r + 0.1 * v) * (0.9 * r + 0.1 * v)
  {
    assert Smooth(None, raw) == Smooth(Some(raw), raw);
    MulNonNegative(r - v, r + v);
    assert (r - v) * (r + v) == r * r - v * v;
    SmoothSpeed(raw, raw, r, v);
  }

  lemma ReactKeepsVelocity(s: State, t: TickInput)
    ensures React(s, t).0.smoothed == s.smoothed
  {
  }

  lemma UpdateKeepsVelocity(s: State, t: TickInput)
    ensures UpdateSearch(s, t).0.smoothed == s.smoothed
  {
  }

  lemma ProcessKeepsVelocity(s: State, t: TickInput)
    ensures ProcessActive(s, t).0.smoothed == s.smoothed
  {
    hide UpdateSearch, MustEndSearch, Arrived;
    UpdateKeepsVelocity(s, t);
  }

  lemma SafeLandingKeepsVelocity(s: State, t: TickInput)
    ensures HandleSafeLanding(s, t).0.smoothed == s.smoothed
  {
    hide React, ProcessActive, Intervenes, MustHold;
    var c := UpdateAvoidance(s, t.rosNow);
    ReactKeepsVelocity(c, t);
    ProcessKeepsVelocity(if Intervenes(c, t) then Intervene(c, t).0 else c, t);
  }

  lemma TickKeepsVelocity(s: State, t: TickInput)
    ensures TickStep(s, t).0.smoothed == s.smoothed
  {
    hide HandleSafeLanding, ObstacleAhead;
    SafeLandingKeepsVelocity(s.(config := t.config), t);
  }

  /** The smoothed search velocity over any run: starting within an initial bound, with all steering
      messages of the run answered at search speeds within v, after k of them it is at most
      v + 0.9^k (initial - v). With v equal to the initial bound this says that the commanded speed never
      exceeds the largest search speed used so far; speeds that are configured and never used do not
      matter. */
  lemma {:induction false} SearchSpeedBound(s: State, events: seq<Event>, initial: real, v: real, k: nat)
    requires 0.0 <= v <= initial
    requires SpeedsWithin(s, events, v)
    requires SmoothedWithin(s, SpeedBound(initial, v, k))
    ensures SmoothedWithin(Run(s, events), SpeedBound(initial, v, k + SteeringMessages(s, events)))
    decreases events
  {
    hide Next, SmoothedWithin, SpeedBound, Steers;
    if events != [] {
      var e, rest := events[0], events[1..];
      SpeedBoundStep(initial, v, k);
      SmoothedStep(s, e, SpeedBound(initial, v, k), v);
      if e.Trajectory? && Steers(s, e.trajectory) {
        SearchSpeedBound(Next(s, e), rest, initial, v, k + 1);
      } else {
        SmoothedFrame(s, Next(s, e), SpeedBound(initial, v, k));
        SearchSpeedBound(Next(s, e), rest, initial, v, k);
      }
    }
  }

  lemma SmoothedFrame(s: State, s': State, bound: real)
    requires s'.smoothed == s.smoothed
    requires SmoothedWithin(s, bound)
    ensures SmoothedWithin(s', bound)
  {
  }

  /** The velocity in the answer is the smoothed one, reversed: it points at the waypoint side and is
      as fast. */
  lemma CommandedSpeed(s: State, m: TrajectoryInput, bound: real)
    requires Steers(s, m)
    requires SmoothedWithin(TrajectoryStep(s, m).0, bound)
    ensures var answer := TrajectoryStep(s, m).1;
            && answer.Some? && answer.value.velX.Some? && answer.value.velY.Some?
            && Square(Velocity(answer.value.velX.value, answer.value.velY.value)) <= bound * bound
  {
    var (s', answer) := TrajectoryStep(s, m);
    var v := s'.smoothed.value;
    assert (-v.x) * (-v.x) == v.x * v.x && (-v.y) * (-v.y) == v.y * v.y;
  }

  /** The answer commands exactly the search speed, straight at the waypoint: its length is the speed and
      its projection on the way to the waypoint is as long as it is. */
  predicate HeadsForWaypoint(s: State, m: TrajectoryInput)
    requires Steers(s, m)
  {
    var answer, w, speed := TrajectoryStep(s, m).1, s.localOverride.value, s.config.landingSiteSearchSpeed;
    && answer.Some? && answer.value.velX.Some? && answer.value.velY.Some?
    && var vx, vy := answer.value.velX.value, answer.value.velY.value;
    && vx * vx + vy * vy == speed * speed
    && vx * (w.x - m.posX) + vy * (w.y - m.posY) == speed * m.distance
  }

  /** An answer heads for the waypoint exactly when nothing was smoothed before (the first steering
      message of the process) or the smoothed velocity already is the new one. The smoothed velocity
      outlives a search, so that a later search starts with what the last one left. */
  lemma AnswerHeadsForWaypoint(s: State, m: TrajectoryInput)
    requires Steers(s, m) && Measured(s, m) && m.distance > 0.0
    ensures HeadsForWaypoint(s, m) <==>
              s.smoothed.None?
              || s.smoothed.value == RawVelocity(s.localOverride.value, m, s.config.landingSiteSearchSpeed)
  {
    var w, speed := s.localOverride.value, s.config.landingSiteSearchSpeed;
    var raw := RawVelocity(w, m, speed);
    AnswerIsReversed(s, m);
    RawHeading(w, m, speed);
    hide HeadsForWaypoint, RawVelocity, Smooth, TrajectoryStep, Steers, Square;
    HeadingVector(Smooth(s.smoothed, raw), raw, m.posX - w.x, m.posY - w.y, m.distance, speed);
    SmoothIsRaw(s.smoothed, raw);
  }

  /** The vector has the length of the speed, and its projection on (dx, dy) is as long as it is. */
  predicate Heading(v: Velocity, dx: real, dy: real, d: real, speed: real) {
    Square(v) == speed * speed && v.x * dx + v.y * dy == speed * d
  }

  lemma AnswerVelocity(s: State, m: TrajectoryInput)
    requires Steers(s, m)
    ensures var answer := TrajectoryStep(s, m).1;
            var v := Smooth(s.smoothed, RawVelocity(s.localOverride.value, m, s.config.landingSiteSearchSpeed));
            answer.Some? && answer.value.velX == Some(-v.x) && answer.value.velY == Some(-v.y)
  {
    hide RawVelocity, Smooth;
  }

  /** The answer is the smoothed velocity, reversed. */
  lemma AnswerIsReversed(s: State, m: TrajectoryInput)
    requires Steers(s, m)
    ensures var w, speed := s.localOverride.value, s.config.landingSiteSearchSpeed;
            HeadsForWaypoint(s, m) <==>
              Heading(Smooth(s.smoothed, RawVelocity(w, m, speed)), m.posX - w.x, m.posY - w.y, m.distance, speed)
  {
    hide RawVelocity, TrajectoryStep, Smooth;
    AnswerVelocity(s, m);
    var w, speed := s.localOverride.value, s.config.landingSiteSearchSpeed;
    Reversed(Smooth(s.smoothed, RawVelocity(w, m, speed)), m.posX, m.posY, w.x, w.y);
  }

  lemma HeadingVector(v: Velocity, raw: Velocity, dx: real, dy: real, d: real, speed: real)
    requires d > 0.0 && raw.x * d == dx * speed && raw.y * d == dy * speed
    requires Heading(raw, dx, dy, d, speed)
    ensures Heading(v, dx, dy, d, speed) <==> v == raw
  {
    if Heading(v, dx, dy, d, speed) {
      SameVector(v, raw, dx, dy, d, speed);
    }
  }

  lemma SmoothIsRaw(previous: Option<Velocity>, raw: Velocity)
    ensures Smooth(previous, raw) == raw <==> previous.None? || previous.value == raw
  {
  }

  /** A vector of the right length and the right projection is the right vector. */
  lemma SameVector(v: Velocity, raw: Velocity, dx: real, dy: real, d: real, speed: real)
    requires d > 0.0 && raw.x * d == dx * speed && raw.y * d == dy * speed
    requires Square(raw) == speed * speed && Square(v) == speed * speed
    requires v.x * dx + v.y * dy == speed * d
    ensures v == raw
  {
    assert (v.x * raw.x + v.y * raw.y) * d == v.x * (dx * speed) + v.y * (dy * speed);
    assert v.x * (dx * speed) + v.y * (dy * speed) == (v.x * dx + v.y * dy) * speed == speed * d * speed;
    Cancel(v.x * raw.x + v.y * raw.y, speed * speed, d);
    var p, q := v.x - raw.x, v.y - raw.y;
    assert p * p + q * q == Square(v) - 2.0 * (v.x * raw.x + v.y * raw.y) + Square(raw);
    NullVector(p, q);
  }

  lemma RawHeading(w: LocalWaypoint, m: TrajectoryInput, speed: real)
    requires m.distance > 0.0
    requires m.distance * m.distance == (m.posX - w.x) * (m.posX - w.x) + (m.posY - w.y) * (m.posY - w.y)
    ensures var raw := RawVelocity(w, m, speed);
            && Square(raw) == speed * speed
            && raw.x * (m.posX - w.x) + raw.y * (m.posY - w.y) == speed * m.distance
            && raw.x * m.distance == (m.posX - w.x) * speed
            && raw.y * m.distance == (m.posY - w.y) * speed
  {
    UnitVector(m.posX - w.x, m.posY - w.y, m.distance, speed);
    Projection(m.posX - w.x, m.posY - w.y, m.distance, speed);
    ScaleBack(m.posX - w.x, m.distance, speed);
    ScaleBack(m.posY - w.y, m.distance, speed);
  }

  lemma ScaleBack(x: real, d: real, speed: real)
    requires d > 0.0
    ensures x / d * speed * d == x * speed
  {
    var y := x / d;
    assert y * d == x;
    assert y * speed * d == (y * d) * speed;
  }

  lemma Reversed(v: Velocity, px: real, py: real, wx: real, wy: real)
    ensures (-v.x) * (-v.x) + (-v.y) * (-v.y) == Square(v)
    ensures (-v.x) * (wx - px) + (-v.y) * (wy - py) == v.x * (px - wx) + v.y * (py - wy)
  {
  }

  lemma Projection(dx: real, dy: real, d: real, speed: real)
    requires d > 0.0 && d * d == dx * dx + dy * dy
    ensures dx / d * speed * dx + dy / d * speed * dy == speed * d
  {
    var x, y := dx / d, dy / d;
    assert dx == x * d && dy == y * d;
    assert dx * dx == d * (x * dx) && dy * dy == d * (y * dy);
    Cancel(x * dx + y * dy, d, d);
    assert x * speed * dx + y * speed * dy == speed * (x * dx + y * dy);
  }
}
