/**
 * Per-tick physics of the lander: the control rules (rotation speed,
 * facing angle, thrust and gravity), Euler integration of the position,
 * the bounce of a velocity off a wall, and the in-place collision response.
 *
 * The tuning constants never change at run time, so they are module
 * constants here, and the five step rules are pure functions over them.
 * The collision response changes the lander in place and is a method.
 */
module LanderPhysics {
  import opened Geometry

  const MAX_ROTATION_SPEED: real := 0.2
  const ROTATION_DAMPING: real := 0.0001
  const ROTATION_ACCELERATION: real := 0.002
  const FRICTION: real := 0.3
  const RESTITUTION: real := 0.7
  const GRAVITY: real := 0.02

  /** Velocity magnitude below which a collision stops the lander dead. */
  const REST_THRESHOLD: real := 0.2
  /** Upward correction applied to the lander's position on every collision. */
  const LIFT_ON_CONTACT: real := 0.3
  /** Rotation impulse per unit of post-collision speed. */
  const SPIN_PER_SPEED: real := 0.03
  /** Share of the thrust the engine delivers at half power. */
  const HALF_THRUST: real := 0.6

  datatype RotationDirection = Cw | Ccw | RotationOff

  datatype EngineState = EngineOff | Half | Full

  function Abs(x: real): real {
    if x < 0.0 then -x else x
  }

  // ---------------------------------------------------------------------
  // Rotation speed
  // ---------------------------------------------------------------------

  /**
   * One tick of the rotation-speed rule. Clockwise lowers the speed by one
   * acceleration step as long as the speed is at most the cap; counter-
   * clockwise raises it while it is at least minus the cap; with no command
   * the speed moves one damping step, down when positive and up otherwise.
   */
  function Rotate(rotation: RotationDirection, rotationSpeed: real): (r: real)
    ensures rotation == Cw ==> r <= rotationSpeed
    ensures rotation == Ccw ==> r >= rotationSpeed
    ensures rotation == RotationOff ==> Abs(r - rotationSpeed) == ROTATION_DAMPING
    ensures rotation == RotationOff ==> (r < rotationSpeed <==> rotationSpeed > 0.0)
  {
    match rotation
    case Cw =>
      if rotationSpeed <= MAX_ROTATION_SPEED then rotationSpeed - ROTATION_ACCELERATION else rotationSpeed
    case Ccw =>
      if rotationSpeed >= -MAX_ROTATION_SPEED then rotationSpeed + ROTATION_ACCELERATION else rotationSpeed
    case RotationOff =>
      if rotationSpeed > 0.0 then rotationSpeed - ROTATION_DAMPING else rotationSpeed + ROTATION_DAMPING
  }

  /** The rotation speed after `ticks` ticks under one unchanging command. */
  function RotateTicks(rotation: RotationDirection, rotationSpeed: real, ticks: nat): real {
    if ticks == 0 then rotationSpeed else Rotate(rotation, RotateTicks(rotation, rotationSpeed, ticks - 1))
  }

  /** At or below the cap, holding clockwise lowers the speed by exactly one step per tick. */
  lemma {:induction false} RotateCwSteps(s: real, ticks: nat)
    requires s <= MAX_ROTATION_SPEED
    ensures RotateTicks(Cw, s, ticks) == s - ticks as real * ROTATION_ACCELERATION
  {
    if ticks > 0 {
      RotateCwSteps(s, ticks - 1);
    }
  }

  /** So holding clockwise drives the speed below any bound: there is no lower clamp. */
  lemma RotateCwUnbounded(s: real, bound: real)
    requires s <= MAX_ROTATION_SPEED
    ensures exists ticks: nat :: RotateTicks(Cw, s, ticks) < bound
  {
    var ticks: nat := if s < bound then 0 else ((s - bound) / ROTATION_ACCELERATION).Floor + 1;
    RotateCwSteps(s, ticks);
    assert ticks as real * ROTATION_ACCELERATION > s - bound;
  }

  /** Above the cap, holding clockwise leaves the speed where it is, forever. */
  lemma {:induction false} RotateCwAboveCap(s: real, ticks: nat)
    requires s > MAX_ROTATION_SPEED
    ensures RotateTicks(Cw, s, ticks) == s
  {
    if ticks > 0 {
      RotateCwAboveCap(s, ticks - 1);
    }
  }

  /** At or above minus the cap, holding counter-clockwise raises the speed by exactly one step per tick. */
  lemma {:induction false} RotateCcwSteps(s: real, ticks: nat)
    requires s >= -MAX_ROTATION_SPEED
    ensures RotateTicks(Ccw, s, ticks) == s + ticks as real * ROTATION_ACCELERATION
  {
    if ticks > 0 {
      RotateCcwSteps(s, ticks - 1);
    }
  }

  /** So holding counter-clockwise drives the speed above any bound: there is no upper clamp. */
  lemma RotateCcwUnbounded(s: real, bound: real)
    requires s >= -MAX_ROTATION_SPEED
    ensures exists ticks: nat :: RotateTicks(Ccw, s, ticks) > bound
  {
    var ticks: nat := if s > bound then 0 else ((bound - s) / ROTATION_ACCELERATION).Floor + 1;
    RotateCcwSteps(s, ticks);
    assert ticks as real * ROTATION_ACCELERATION > bound - s;
  }

  /** Below minus the cap, holding counter-clockwise leaves the speed where it is, forever. */
  lemma {:induction false} RotateCcwBelowCap(s: real, ticks: nat)
    requires s < -MAX_ROTATION_SPEED
    ensures RotateTicks(Ccw, s, ticks) == s
  {
    if ticks > 0 {
      RotateCcwBelowCap(s, ticks - 1);
    }
  }

  /**
   * With no command, a speed of magnitude at least one damping step loses
   * exactly one step of magnitude and keeps its sign.
   */
  lemma RotateOffDamps(s: real)
    requires Abs(s) >= ROTATION_DAMPING
    ensures Abs(Rotate(RotationOff, s)) == Abs(s) - ROTATION_DAMPING
    ensures s > 0.0 ==> Rotate(RotationOff, s) >= 0.0
    ensures s < 0.0 ==> Rotate(RotationOff, s) <= 0.0
  {
  }

  /**
   * With no command, a speed smaller than one damping step overshoots past
   * zero, and a speed of exactly zero is pushed up to one damping step.
   */
  lemma RotateOffOvershoots(s: real)
    requires Abs(s) < ROTATION_DAMPING
    ensures s > 0.0 ==> Rotate(RotationOff, s) < 0.0
    ensures s < 0.0 ==> Rotate(RotationOff, s) > 0.0
    ensures s == 0.0 ==> Rotate(RotationOff, s) == ROTATION_DAMPING
  {
  }

  /** From a positive speed, the damping removes exactly one step per tick until the speed is spent. */
  lemma {:induction false} RotateOffSteps(s: real, ticks: nat)
    requires s > 0.0 && ticks as real * ROTATION_DAMPING <= s
    ensures RotateTicks(RotationOff, s, ticks) == s - ticks as real * ROTATION_DAMPING
  {
    if ticks > 0 {
      RotateOffSteps(s, ticks - 1);
    }
  }

  /** From a speed at most zero, the damping adds exactly one step per tick until the speed has passed zero. */
  lemma {:induction false} RotateOffStepsUp(s: real, ticks: nat)
    requires s <= 0.0 && ticks as real * ROTATION_DAMPING <= -s + ROTATION_DAMPING
    ensures RotateTicks(RotationOff, s, ticks) == s + ticks as real * ROTATION_DAMPING
  {
    if ticks > 0 {
      RotateOffStepsUp(s, ticks - 1);
    }
  }

  /**
   * Within one damping step of rest the speed never settles: it alternates
   * between two values for ever, returning to where it started every second tick.
   */
  lemma {:induction false} RotateOffOscillates(s: real, ticks: nat)
    requires -ROTATION_DAMPING < s <= ROTATION_DAMPING
    ensures -ROTATION_DAMPING < RotateTicks(RotationOff, s, ticks) <= ROTATION_DAMPING
    ensures RotateTicks(RotationOff, s, 2 * ticks) == s
    ensures RotateTicks(RotationOff, s, 2 * ticks + 1) != s
  {
    if ticks > 0 {
      RotateOffOscillates(s, ticks - 1);
      assert RotateTicks(RotationOff, s, 2 * ticks) == Rotate(RotationOff, RotateTicks(RotationOff, s, 2 * ticks - 1));
      assert 2 * ticks - 1 == 2 * (ticks - 1) + 1;
    }
  }

  // ---------------------------------------------------------------------
  // Angle and position
  // ---------------------------------------------------------------------

  /** The facing angle after one tick: the rotation speed is added, with no wrap-around. */
  function Angle(angle: real, rotation: real): (r: real)
    ensures r - angle == rotation
  {
    angle + rotation
  }

  function AngleTicks(angle: real, rotation: real, ticks: nat): real {
    if ticks == 0 then angle else Angle(AngleTicks(angle, rotation, ticks - 1), rotation)
  }

  /** Angles are never normalised: after `ticks` ticks the angle has moved by `ticks` times the speed. */
  lemma {:induction false} AngleAccumulates(angle: real, rotation: real, ticks: nat)
    ensures AngleTicks(angle, rotation, ticks) == angle + ticks as real * rotation
  {
    if ticks > 0 {
      AngleAccumulates(angle, rotation, ticks - 1);
    }
  }

  /** One Euler step: the new position is the old one displaced by the velocity. */
  function Travel(position: Point, velocity: Vec): (r: Point)
    ensures Sub(r, position) == velocity
  {
    Vec(position.x + velocity.x, position.y + velocity.y)
  }

  function TravelTicks(position: Point, velocity: Vec, ticks: nat): Point {
    if ticks == 0 then position else Travel(TravelTicks(position, velocity, ticks - 1), velocity)
  }

  /** Travelling back with the opposite velocity returns to the starting position. */
  lemma TravelUndo(position: Point, velocity: Vec)
    ensures Travel(Travel(position, velocity), Neg(velocity)) == position
  {
  }

  /** At constant velocity, `ticks` steps displace the position by `ticks` times the velocity. */
  lemma {:induction false} TravelAccumulates(position: Point, velocity: Vec, ticks: nat)
    ensures TravelTicks(position, velocity, ticks) == Add(position, Scale(velocity, ticks as real))
  {
    if ticks > 0 {
      TravelAccumulates(position, velocity, ticks - 1);
    }
  }

  // ---------------------------------------------------------------------
  // Thrust and gravity
  // ---------------------------------------------------------------------

  /**
   * One tick of thrust and gravity. With the engine on, the thrust (full or
   * 0.6 of it) is applied along the facing angle; gravity is then subtracted
   * from the vertical component whatever the engine does. `sin` and `cos`
   * stand for the host's trigonometric functions.
   */
  function Accelerate(velocity: Vec, thrust: real, angle: real, engine: EngineState,
                      sin: real -> real, cos: real -> real): (r: Vec)
    ensures engine == EngineOff ==> r == Vec(velocity.x, velocity.y - GRAVITY)
  {
    var pushed :=
      if engine != EngineOff then
        var t := if engine == Full then thrust else thrust * HALF_THRUST;
        Vec(velocity.x + t * sin(-angle), velocity.y + t * cos(angle))
      else
        velocity;
    Vec(pushed.x, pushed.y - GRAVITY)
  }

  /** The change in velocity that the engine alone causes, gravity excluded. */
  function ThrustDelta(velocity: Vec, thrust: real, angle: real, engine: EngineState,
                       sin: real -> real, cos: real -> real): Vec
  {
    Sub(Accelerate(velocity, thrust, angle, engine, sin, cos), Accelerate(velocity, thrust, angle, EngineOff, sin, cos))
  }

  /** At the same angle and thrust, half power changes the velocity by exactly 0.6 of what full power does. */
  lemma HalfIsSixTenthsOfFull(velocity: Vec, thrust: real, angle: real, sin: real -> real, cos: real -> real)
    ensures ThrustDelta(velocity, thrust, angle, Half, sin, cos)
         == Scale(ThrustDelta(velocity, thrust, angle, Full, sin, cos), HALF_THRUST)
  {
  }

  /**
   * The engine's push points along the facing direction `(sin(-angle), cos(angle))`,
   * is proportional to the thrust and does not depend on the current velocity.
   */
  lemma ThrustAlongFacing(velocity: Vec, other: Vec, thrust: real, angle: real, sin: real -> real, cos: real -> real)
    ensures ThrustDelta(velocity, thrust, angle, Full, sin, cos) == Scale(Vec(sin(-angle), cos(angle)), thrust)
    ensures ThrustDelta(velocity, thrust, angle, Full, sin, cos) == ThrustDelta(other, thrust, angle, Full, sin, cos)
  {
  }

  /** Without thrust gravity is the only change, whatever the engine state: gravity acts on every tick. */
  lemma GravityEveryTick(velocity: Vec, angle: real, engine: EngineState, sin: real -> real, cos: real -> real)
    ensures Accelerate(velocity, 0.0, angle, engine, sin, cos) == Vec(velocity.x, velocity.y - GRAVITY)
  {
  }

  // ---------------------------------------------------------------------
  // Bounce
  // ---------------------------------------------------------------------

  /** The part of `v` along the normal `n`: its projection onto `n`. */
  function NormalPart(v: Vec, n: Vec): (u: Vec)
    requires Dot(n, n) > 0.0
    ensures Cross(u, n) == 0.0
    ensures Dot(u, n) == Dot(v, n)
  {
    var k := Dot(v, n) / Dot(n, n);
    assert Dot(Scale(n, k), n) == k * Dot(n, n);
    Scale(n, k)
  }

  /** What is left of `v` once its part along `n` is taken away: its component along the wall. */
  function TangentPart(v: Vec, n: Vec): (w: Vec)
    requires Dot(n, n) > 0.0
    ensures Dot(w, n) == 0.0
    ensures Cross(w, n) == Cross(v, n)
    ensures Add(NormalPart(v, n), w) == v
  {
    Sub(v, NormalPart(v, n))
  }

  /**
   * The bounce against a wall with non-zero normal `n`: the part along the
   * wall is kept scaled by `friction`, the part along the normal is turned
   * round and scaled by `restitution`.
   */
  function BounceOnNormal(v: Vec, n: Vec, friction: real, restitution: real): (b: Vec)
    requires Dot(n, n) > 0.0
    ensures Dot(b, n) == -restitution * Dot(v, n)
    ensures Cross(b, n) == friction * Cross(v, n)
  {
    var u := NormalPart(v, n);
    var w := TangentPart(v, n);
    var b := Sub(Scale(w, friction), Scale(u, restitution));
    ScaleProducts(w, friction, n);
    ScaleProducts(u, restitution, n);
    SubProducts(Scale(w, friction), Scale(u, restitution), n);
    b
  }

  /**
   * The bounce off a wall given by its direction: the velocity along the
   * wall is scaled by `friction`, the velocity across it is reversed and
   * scaled by `restitution`. Both coefficients default to 1.
   */
  function Bounce(vector: Vec, wall: Vec, friction: real := 1.0, restitution: real := 1.0): (b: Vec)
    requires Dot(wall, wall) > 0.0
    ensures Dot(b, wall) == friction * Dot(vector, wall)
    ensures Cross(b, wall) == -restitution * Cross(vector, wall)
  {
    var normal := NormalA(wall);
    var b := BounceOnNormal(vector, normal, friction, restitution);
    NormalAProducts(b, wall);
    NormalAProducts(vector, wall);
    b
  }

  /**
   * Collects, in one place, the facts about the two parts of the velocity
   * that `NormalPart` and `TangentPart` establish: the normal part is the
   * normal scaled by dot(v, n)/dot(n, n), the remainder is orthogonal to
   * it, and together they make up the velocity.
   */
  lemma BounceParts(v: Vec, n: Vec)
    requires Dot(n, n) > 0.0
    ensures NormalPart(v, n) == Scale(n, Dot(v, n) / Dot(n, n))
    ensures Dot(TangentPart(v, n), n) == 0.0
    ensures Add(NormalPart(v, n), TangentPart(v, n)) == v
  {
  }

  /**
   * The result is `f w - r u` for ANY split of the velocity into a part `u`
   * parallel to the normal and a part `w` orthogonal to it, not only for the
   * projection the code computes.
   */
  lemma BounceAnyDecomposition(v: Vec, n: Vec, u: Vec, w: Vec, friction: real, restitution: real)
    requires Dot(n, n) > 0.0
    requires Cross(u, n) == 0.0 && Dot(w, n) == 0.0 && Add(u, w) == v
    ensures BounceOnNormal(v, n, friction, restitution) == Sub(Scale(w, friction), Scale(u, restitution))
  {
    var p := NormalPart(v, n);
    assert w == Sub(v, u);
    SubProducts(v, u, n);
    DeterminedByDotAndCross(u, p, n);
  }

  /** With the default coefficients the bounce is the mirror image `w - u` and keeps the squared speed. */
  lemma BounceMirror(v: Vec, wall: Vec)
    requires Dot(wall, wall) > 0.0
    ensures Bounce(v, wall) == Sub(TangentPart(v, NormalA(wall)), NormalPart(v, NormalA(wall)))
    ensures Dot(Bounce(v, wall), Bounce(v, wall)) == Dot(v, v)
  {
    var b := Bounce(v, wall);
    var n := Dot(wall, wall);
    Lagrange(b, wall);
    Lagrange(v, wall);
    assert Dot(b, b) * n == Dot(v, v) * n;
  }

  /** Mirroring twice off the same wall gives the original velocity back. */
  lemma BounceMirrorTwice(v: Vec, wall: Vec)
    requires Dot(wall, wall) > 0.0
    ensures Bounce(Bounce(v, wall), wall) == v
  {
    DeterminedByDotAndCross(Bounce(Bounce(v, wall), wall), v, wall);
  }

  /** With no restitution nothing is left across the wall: the result runs along it. */
  lemma BounceNoRestitution(v: Vec, wall: Vec, friction: real)
    requires Dot(wall, wall) > 0.0
    ensures Dot(Bounce(v, wall, friction, 0.0), NormalA(wall)) == 0.0
    ensures Bounce(v, wall, friction, 0.0) == Scale(TangentPart(v, NormalA(wall)), friction)
  {
  }

  /** With no friction nothing is left along the wall: the result is a multiple of the normal. */
  lemma BounceNoFriction(v: Vec, wall: Vec, restitution: real)
    requires Dot(wall, wall) > 0.0
    ensures Dot(Bounce(v, wall, 0.0, restitution), wall) == 0.0
    ensures Bounce(v, wall, 0.0, restitution) == Scale(NormalPart(v, NormalA(wall)), -restitution)
  {
  }

  /** In the plane, a vector orthogonal to a non-zero wall is a multiple of its left-hand normal. */
  lemma PerpendicularIsMultiple(m: Vec, wall: Vec)
    requires Dot(wall, wall) > 0.0 && Dot(m, wall) == 0.0
    ensures m == Scale(NormalA(wall), Dot(m, NormalA(wall)) / Dot(wall, wall))
  {
    var n := NormalA(wall);
    var k := Dot(m, n) / Dot(wall, wall);
    var c := Scale(n, k);
    ScaleProducts(n, k, n);
    CrossSelf(n);
    NormalAProducts(m, wall);
    assert Dot(c, n) == Dot(m, n);
    assert Cross(c, n) == 0.0 == Cross(m, n);
    DeterminedByDotAndCross(m, c, n);
  }

  /**
   * The bounce does not depend on which normal of the wall is used: any
   * non-zero vector orthogonal to the wall gives the same result.
   */
  lemma BounceAnyPerpendicular(v: Vec, wall: Vec, m: Vec, friction: real, restitution: real)
    requires Dot(wall, wall) > 0.0
    requires Dot(m, wall) == 0.0 && Dot(m, m) > 0.0
    ensures BounceOnNormal(v, m, friction, restitution) == Bounce(v, wall, friction, restitution)
  {
    var n := NormalA(wall);
    PerpendicularIsMultiple(m, wall);
    BounceOnScaledNormal(v, n, Dot(m, n) / Dot(wall, wall), friction, restitution);
  }

  /** Scaling the normal by a non-zero factor does not change the bounce. */
  lemma BounceOnScaledNormal(v: Vec, n: Vec, k: real, friction: real, restitution: real)
    requires Dot(n, n) > 0.0 && Dot(Scale(n, k), Scale(n, k)) > 0.0
    ensures BounceOnNormal(v, Scale(n, k), friction, restitution) == BounceOnNormal(v, n, friction, restitution)
  {
    var m := Scale(n, k);
    assert k != 0.0;
    var b := BounceOnNormal(v, m, friction, restitution);
    var c := BounceOnNormal(v, n, friction, restitution);
    var bd, bc, vd, vc := Dot(b, n), Cross(b, n), Dot(v, n), Cross(v, n);
    ScaledAgainst(b, n, k);
    ScaledAgainst(v, n, k);
    Regroup(-restitution, k, vd, Dot(v, m));
    Regroup(friction, k, vc, Cross(v, m));
    CancelFactor(k, bd, -restitution * vd);
    CancelFactor(k, bc, friction * vc);
    DeterminedByDotAndCross(b, c, n);
  }

  /** Off a horizontal wall the horizontal speed is scaled by the friction and the vertical one reversed by the restitution. */
  lemma BounceOffHorizontal(v: Vec, wall: Vec, friction: real, restitution: real)
    requires Dot(wall, wall) > 0.0 && wall.y == 0.0
    ensures Bounce(v, wall, friction, restitution) == Vec(friction * v.x, -restitution * v.y)
  {
    var b := Bounce(v, wall, friction, restitution);
    var c := Vec(friction * v.x, -restitution * v.y);
    assert Dot(b, wall) == friction * v.x * wall.x == Dot(c, wall);
    assert Cross(b, wall) == restitution * v.y * wall.x == Cross(c, wall);
    DeterminedByDotAndCross(b, c, wall);
  }

  // ---------------------------------------------------------------------
  // Collision response
  // ---------------------------------------------------------------------

  /** One record of the overlap test: the struck terrain segment and the contact point. */
  datatype Collision = Collision(segmentStart: Point, segmentEnd: Point, point: Point)

  /** The direction of the struck terrain segment. */
  function WallOf(c: Collision): Vec {
    Sub(c.segmentEnd, c.segmentStart)
  }

  /** The bounce can be computed: the first record, the only one used, has a segment of non-zero length. */
  predicate Resolvable(collisions: seq<Collision>) {
    |collisions| == 0 || Dot(WallOf(collisions[0]), WallOf(collisions[0])) > 0.0
  }

  /** `length` behaves as the Euclidean length: non-negative, and its square is the squared length. */
  ghost predicate IsLength(length: Vec -> real) {
    forall v :: 0.0 <= length(v) && length(v) * length(v) == Dot(v, v)
  }

  /** The parts of the lander that the collision response reads and writes. */
  datatype LanderState = LanderState(velocity: Vec, position: Point, rotationSpeed: real, geometry: seq<Point>)

  /**
   * The lander after the collision response, given the overlap records and
   * the length function. Only the first record is used.
   */
  function Collided(s: LanderState, collisions: seq<Collision>, length: Vec -> real): (r: LanderState)
    requires Resolvable(collisions)
    ensures r.geometry == s.geometry && r.position.x == s.position.x
    ensures |collisions| == 0 ==> r == s
  {
    if |collisions| == 0 then s
    else
      var contact := collisions[0];
      var bounced := Bounce(s.velocity, WallOf(contact), FRICTION, RESTITUTION);
      var velocity := if length(bounced) < REST_THRESHOLD then Zero else bounced;
      var position := s.position.(y := s.position.y + LIFT_ON_CONTACT);
      var spin := SPIN_PER_SPEED * length(velocity);
      var rotationSpeed := if contact.point.x < position.x then s.rotationSpeed - spin else s.rotationSpeed + spin;
      LanderState(velocity, position, rotationSpeed, s.geometry)
  }

  /** Only the first collision record matters; the rest are ignored. */
  lemma CollideFirstRecordOnly(s: LanderState, collisions: seq<Collision>, length: Vec -> real)
    requires |collisions| > 0 && Resolvable(collisions)
    ensures Collided(s, collisions, length) == Collided(s, collisions[..1], length)
  {
  }

  /** A threshold on the length is the same as one on the squared length. */
  lemma LengthBelow(length: Vec -> real, v: Vec, bound: real)
    requires IsLength(length) && bound > 0.0
    ensures length(v) < bound <==> Dot(v, v) < bound * bound
  {
    var l := length(v);
    assert 0.0 <= l && l * l == Dot(v, v);
    if l < bound {
      SquareLess(l, bound);
    } else if bound < l {
      SquareLess(bound, l);
    }
  }

  lemma LengthOfZero(length: Vec -> real)
    requires IsLength(length)
    ensures length(Zero) == 0.0
  {
    var l := length(Zero);
    assert 0.0 <= l && l * l == Dot(Zero, Zero) == 0.0;
    if l > 0.0 {
      SquareLess(0.0, l);
    }
  }

  /**
   * On contact the velocity becomes the bounce with the engine's friction and
   * restitution, or the zero vector if that bounce is slower than the rest
   * threshold, and the lander is lifted by a fixed amount.
   */
  lemma CollideVelocityAndLift(s: LanderState, collisions: seq<Collision>, length: Vec -> real)
    requires IsLength(length)
    requires |collisions| > 0 && Resolvable(collisions)
    ensures var b := Bounce(s.velocity, WallOf(collisions[0]), FRICTION, RESTITUTION);
            Collided(s, collisions, length).velocity
              == if Dot(b, b) < REST_THRESHOLD * REST_THRESHOLD then Zero else b
    ensures Collided(s, collisions, length).position == Vec(s.position.x, s.position.y + LIFT_ON_CONTACT)
  {
    var b := Bounce(s.velocity, WallOf(collisions[0]), FRICTION, RESTITUTION);
    LengthBelow(length, b, REST_THRESHOLD);
  }

  /**
   * On contact the rotation speed moves by SPIN_PER_SPEED times the new speed:
   * down when the contact point lies left of the lander, up otherwise. A
   * lander brought to rest keeps its rotation speed; one still moving turns
   * strictly.
   */
  lemma CollideSpin(s: LanderState, collisions: seq<Collision>, length: Vec -> real)
    requires IsLength(length)
    requires |collisions| > 0 && Resolvable(collisions)
    ensures var r := Collided(s, collisions, length);
            var stopped := r.velocity == Zero;
            (collisions[0].point.x < s.position.x ==>
               r.rotationSpeed == s.rotationSpeed - SPIN_PER_SPEED * length(r.velocity)
               && (if stopped then r.rotationSpeed == s.rotationSpeed else r.rotationSpeed < s.rotationSpeed))
            && (collisions[0].point.x >= s.position.x ==>
               r.rotationSpeed == s.rotationSpeed + SPIN_PER_SPEED * length(r.velocity)
               && (if stopped then r.rotationSpeed == s.rotationSpeed else r.rotationSpeed > s.rotationSpeed))
  {
    var r := Collided(s, collisions, length);
    LengthOfZero(length);
    var b := Bounce(s.velocity, WallOf(collisions[0]), FRICTION, RESTITUTION);
    LengthBelow(length, b, REST_THRESHOLD);
    if r.velocity != Zero {
      assert r.velocity == b && length(b) >= REST_THRESHOLD;
    }
  }

  /**
   * A lander falling onto a horizontal segment leaves the collision with a
   * vertical speed that is not negative.
   */
  lemma CollideOnFlatGround(s: LanderState, collisions: seq<Collision>, length: Vec -> real)
    requires |collisions| > 0 && Resolvable(collisions)
    requires WallOf(collisions[0]).y == 0.0
    requires s.velocity.y <= 0.0
    ensures Collided(s, collisions, length).velocity.y >= 0.0
  {
    var b := Bounce(s.velocity, WallOf(collisions[0]), FRICTION, RESTITUTION);
    BounceOffHorizontal(s.velocity, WallOf(collisions[0]), FRICTION, RESTITUTION);
    assert b.y == -RESTITUTION * s.velocity.y >= 0.0;
    var r := Collided(s, collisions, length);
    assert r.velocity == Zero || r.velocity == b;
  }

  /** The lander's mutable state, as far as the collision response sees it. */
  class Lander {
    var velocity: Vec
    var position: Point
    var rotationSpeed: real
    var geometry: seq<Point>

    constructor (position: Point, velocity: Vec, rotationSpeed: real, geometry: seq<Point>)
      ensures State() == LanderState(velocity, position, rotationSpeed, geometry)
    {
      this.position := position;
      this.velocity := velocity;
      this.rotationSpeed := rotationSpeed;
      this.geometry := geometry;
    }

    function State(): LanderState
      reads this
    {
      LanderState(velocity, position, rotationSpeed, geometry)
    }
  }

  /** The physics engine, holding the terrain the lander collides with. */
  class Physics {
    const groundGeometry: seq<Point>

    constructor (groundGeometry: seq<Point>)
      ensures this.groundGeometry == groundGeometry
    {
      this.groundGeometry := groundGeometry;
    }

    /**
     * Resolves a collision between the lander and the terrain in place.
     * `isOverlap` is the provider's overlap test and `length` its vector
     * length; only the first reported record is used.
     */
    method Collide(lander: Lander, isOverlap: (seq<Point>, seq<Point>) -> seq<Collision>, length: Vec -> real)
      requires Resolvable(isOverlap(lander.geometry, groundGeometry))
      modifies lander
      ensures lander.State() == Collided(old(lander.State()), isOverlap(old(lander.geometry), groundGeometry), length)
    {
      var collisions := isOverlap(lander.geometry, groundGeometry);
      if |collisions| != 0 {
        var wallVector := WallOf(collisions[0]);
        lander.velocity := Bounce(lander.velocity, wallVector, FRICTION, RESTITUTION);
        if length(lander.velocity) < REST_THRESHOLD {
          lander.velocity := Zero;
        }
        lander.position := lander.position.(y := lander.position.y + LIFT_ON_CONTACT);
        if collisions[0].point.x < lander.position.x {
          lander.rotationSpeed := lander.rotationSpeed - SPIN_PER_SPEED * length(lander.velocity);
        } else {
          lander.rotationSpeed := lander.rotationSpeed + SPIN_PER_SPEED * length(lander.velocity);
        }
      }
    }
  }
}
