/** How a neuron drifts: an occasional random nudge to its velocity, a cap on
    its speed, a step, and a reversal of the velocity component whose
    coordinate has left the canvas. */
module Motion {
  import opened Geometry

  /** Cap on a neuron's speed (`maxSpeed`). */
  const MAX_SPEED: real := 0.2
  /** Width of each initial velocity component's spread. */
  const SPAWN_SPEED: real := 0.2
  /** Chance per frame that the velocity is nudged. */
  const TURN_CHANCE: real := 0.01
  /** Width of a nudge's spread per component. */
  const NUDGE: real := 0.1

  /** A velocity within the speed cap. */
  predicate Capped(v: Vec)
  {
    SqLen(v) <= Sq(MAX_SPEED)
  }

  /** Both components of a new neuron's velocity lie in [-0.1, 0.1], so it
      starts within the cap. */
  lemma SpawnVelocityCapped(ux: real, uy: real)
    requires Unit(ux) && Unit(uy)
    ensures Capped(Vec(Spread(ux, SPAWN_SPEED), Spread(uy, SPAWN_SPEED)))
  {
    SqWithin(Spread(ux, SPAWN_SPEED), 0.1);
    SqWithin(Spread(uy, SPAWN_SPEED), 0.1);
  }

  /** The velocity after the chance of a nudge: unchanged unless `turn` is
      below TURN_CHANCE, and then moved by at most 0.05 per component. */
  function Nudged(v: Vec, turn: real, nx: real, ny: real): (r: Vec)
    requires Unit(nx) && Unit(ny)
    ensures turn >= TURN_CHANCE ==> r == v
    ensures -0.05 <= r.x - v.x <= 0.05 && -0.05 <= r.y - v.y <= 0.05
  {
    if turn < TURN_CHANCE then Vec(v.x + Spread(nx, NUDGE), v.y + Spread(ny, NUDGE)) else v
  }

  /** The velocity after the speed cap: a velocity within the cap is kept,
      a faster one is scaled down to exactly the cap (ClampedAlong: keeping
      its direction). */
  function Clamped(root: real -> real, v: Vec): (r: Vec)
    requires IsSqrt(root)
    ensures Capped(r)
    ensures Capped(v) ==> r == v
    ensures !Capped(v) ==> SqLen(r) == Sq(MAX_SPEED)
  {
    SqLenNonneg(v);
    HypotAtMost(root, SqLen(v), MAX_SPEED);
    if root(SqLen(v)) > MAX_SPEED then
      ScaledLength(v, root(SqLen(v)), MAX_SPEED);
      Scaled(v, root(SqLen(v)), MAX_SPEED)
    else
      v
  }

  /** A velocity over the cap keeps its direction when it is scaled down. */
  lemma ClampedAlong(root: real -> real, v: Vec)
    requires IsSqrt(root) && !Capped(v)
    ensures Along(Clamped(root, v), v)
  {
    SqLenNonneg(v);
    HypotAtMost(root, SqLen(v), MAX_SPEED);
    ScaledAlong(v, root(SqLen(v)), MAX_SPEED);
  }

  /** The velocity after the edge test at the new position `p`: a component
      is negated when its coordinate is outside [0, width] (or [0, height]).
      The speed is kept; a neuron inside the canvas keeps its velocity, and
      one outside and moving further out turns back. */
  function Bounced(p: Vec, v: Vec, width: real, height: real): (r: Vec)
    ensures SqLen(r) == SqLen(v)
    ensures 0.0 <= p.x <= width && 0.0 <= p.y <= height ==> r == v
    ensures (p.x < 0.0 && v.x < 0.0 ==> r.x > 0.0) && (p.x > width && v.x > 0.0 ==> r.x < 0.0)
    ensures (p.y < 0.0 && v.y < 0.0 ==> r.y > 0.0) && (p.y > height && v.y > 0.0 ==> r.y < 0.0)
  {
    SqNeg(v.x);
    SqNeg(v.y);
    Vec(if p.x < 0.0 || p.x > width then -v.x else v.x,
        if p.y < 0.0 || p.y > height then -v.y else v.y)
  }

  /** Position and velocity of a neuron. */
  datatype Body = Body(pos: Vec, vel: Vec)

  /** One frame of motion: nudge, cap, step, edge test. */
  function Moved(b: Body, width: real, height: real, root: real -> real,
                 turn: real, nx: real, ny: real): (r: Body)
    requires IsSqrt(root) && Unit(nx) && Unit(ny)
    ensures Capped(r.vel)
    ensures -MAX_SPEED <= r.pos.x - b.pos.x <= MAX_SPEED && -MAX_SPEED <= r.pos.y - b.pos.y <= MAX_SPEED
  {
    var v := Clamped(root, Nudged(b.vel, turn, nx, ny));
    SqLenBoundsCoordinates(v, MAX_SPEED);
    var p := b.pos.Plus(v);
    Body(p, Bounced(p, v, width, height))
  }

  /** The edge test looks at the position only, not the direction: a neuron
      just past the left edge and already heading back in is turned out
      again, and without a nudge it rocks between two points outside the
      canvas for ever. */
  lemma StuckOutsideLeftEdge(root: real -> real, width: real, height: real, turn: real)
    requires IsSqrt(root) && 0.0 <= width && 0.0 <= height && turn >= TURN_CHANCE
    ensures var b0 := Body(Vec(-0.15, 1.0), Vec(0.1, 0.0));
            var b1 := Moved(b0, width, height, root, turn, 0.0, 0.0);
            b1.pos.x < 0.0 && Moved(b1, width, height, root, turn, 0.0, 0.0) == b0
  {
    var b0 := Body(Vec(-0.15, 1.0), Vec(0.1, 0.0));
    assert Capped(b0.vel);
    var b1 := Moved(b0, width, height, root, turn, 0.0, 0.0);
    assert b1 == Body(Vec(-0.05, 1.0), Vec(-0.1, 0.0));
    assert Capped(b1.vel);
  }
}
