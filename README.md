# Moonar lander: physics rules and terrain generator

This project models two parts of the moonar-lander game and proves properties of them.

- **The physics engine** (`src/physics.ts`) runs once per tick. It holds these rules:
  - the rotation-speed rule for the three rotation commands;
  - the facing-angle update;
  - one Euler step of the position;
  - thrust and gravity;
  - the bounce of a velocity off a wall, split into its parts along the wall and across it;
  - the collision response, which changes the lander in place.
- **The midpoint-displacement terrain generator** (`frontend/src/midpoint.ts`). It draws start heights from a seeded random source. Each pass then inserts a displaced midpoint, clamped from above at 1, between every pair of neighbours.

The layout is as follows.

- `geometry.dfy` (module `Geometry`) holds the vector value and the algebra the proofs need.
- `physics.dfy` (module `LanderPhysics`) holds the following:
  - the tuning constants;
  - the step rules, as pure functions;
  - the `Lander` class, with the fields the collision response writes;
  - the `Physics` class, whose `Collide` method updates a lander in place.
- `terrain.dfy` (module `Terrain`) holds two layers:
  - Specification functions: `Subdivide` is one pass on values, `Output` is the whole output, and `DrawsUsed` counts the draws consumed.
  - The generator itself, written imperatively as follows.
    - It has a by-reference `NumArray` class.
    - `Visit` is the `map` callback.
    - `Pass` is one `map` over the array.
    - `Iteration` is the body of the outer loop.
    - `Midpoint` is the whole function.
    - The method contracts tie each step to the specification functions.

The model follows the code exactly. Five behaviours of the code are easy to miss, and the model proves each of them.

- **No rotation clamp.** The rotation speed is not clamped to ±`MAX_ROTATION_SPEED`. Each command is tested against the opposite cap. Clockwise lowers the speed but is blocked only while the speed exceeds +`MAX_ROTATION_SPEED`, that is, while the lander spins fast the other way. Counter-clockwise mirrors this: it is blocked only below −`MAX_ROTATION_SPEED` (`src/physics.ts:53-58`).
  - Holding a command drives the speed past any bound the other way: `RotateCwUnbounded`, `RotateCcwUnbounded`.
- **Damping never settles.** With no command the speed is damped by a fixed step, and nothing stops it at zero. It therefore overshoots and oscillates for ever around 0: `RotateOffOvershoots`, `RotateOffOscillates`.
- **The terrain grows by 3L − 1, not by doubling.** From the second pass on, the terrain generator reads the very array it appends to (`frontend/src/midpoint.ts:29`). Each later pass therefore keeps everything produced so far and appends a subdivision of it.
  - The length goes L → 2L − 1 on the first pass and L → 3L − 1 on every later one: `LengthRecurrence`, `LengthClosedForm`, `NotDoubling`.
- **The displacement scale only grows.** It starts at 0.5 and is multiplied by 1.1 after every pass (`frontend/src/midpoint.ts:15,30`): `DecayGrows`.
- **No lower clamp.** The midpoint clamp is from above only, so a midpoint can fall below 0 (`frontend/src/midpoint.ts:25`): `TerrainAtMostOne`, `NoLowerClamp`.

## Model

| member | source | states |
|---|---|---|
| LanderPhysics.Rotate | src/physics.ts:51-63 | Clockwise never raises the speed and counter-clockwise never lowers it. With no command the speed moves by exactly one damping step, and it goes down exactly when it was positive. |
| LanderPhysics.RotateCwSteps | src/physics.ts:53-55 | At or below the cap, `ticks` clockwise ticks lower the speed by exactly `ticks` acceleration steps. |
| LanderPhysics.RotateCwUnbounded | src/physics.ts:53-55 | Starting at or below the cap, holding clockwise eventually takes the speed below any bound: there is no lower clamp. |
| LanderPhysics.RotateCwAboveCap | src/physics.ts:53-55 | Above the cap, clockwise ticks leave the speed unchanged for ever. |
| LanderPhysics.RotateCcwSteps | src/physics.ts:56-58 | At or above minus the cap, `ticks` counter-clockwise ticks raise the speed by exactly `ticks` acceleration steps. |
| LanderPhysics.RotateCcwUnbounded | src/physics.ts:56-58 | Starting at or above minus the cap, holding counter-clockwise eventually takes the speed above any bound: there is no upper clamp. |
| LanderPhysics.RotateCcwBelowCap | src/physics.ts:56-58 | Below minus the cap, counter-clockwise ticks leave the speed unchanged for ever. |
| LanderPhysics.RotateOffDamps | src/physics.ts:59-61 | With no command, a speed of magnitude at least one damping step loses exactly one step of magnitude and keeps its sign. |
| LanderPhysics.RotateOffOvershoots | src/physics.ts:59-61 | With no command, a speed smaller than one damping step overshoots past zero, and a speed of exactly zero becomes plus one step. |
| LanderPhysics.RotateOffSteps | src/physics.ts:59-61 | From a positive speed, each tick removes exactly one damping step for as long as the speed lasts. |
| LanderPhysics.RotateOffStepsUp | src/physics.ts:59-61 | From a speed at most zero, each tick adds exactly one damping step until the speed has passed zero. |
| LanderPhysics.RotateOffOscillates | src/physics.ts:59-61 | Within one damping step of zero, the speed stays in (−step, step] for ever. It returns to its start every second tick and differs from it on every odd tick, so it never comes to rest. |
| LanderPhysics.Angle | src/physics.ts:68-70 | The angle changes by exactly the rotation speed. |
| LanderPhysics.AngleAccumulates | src/physics.ts:68-70 | The angle is never wrapped: after `ticks` ticks it has moved by `ticks` times the speed. |
| LanderPhysics.Travel | src/physics.ts:41-46 | The displacement from the old position to the new one is the velocity. |
| LanderPhysics.TravelUndo | src/physics.ts:41-46 | A step with the opposite velocity returns to the starting position. |
| LanderPhysics.TravelAccumulates | src/physics.ts:41-46 | At constant velocity, `ticks` steps move the position by `ticks` times the velocity. |
| LanderPhysics.Accelerate | src/physics.ts:75-85 | With the engine off, the only change is gravity subtracted from the vertical speed. |
| LanderPhysics.HalfIsSixTenthsOfFull | src/physics.ts:78-82 | At equal thrust and angle, the change half power causes is exactly 0.6 times the change full power causes. |
| LanderPhysics.ThrustAlongFacing | src/physics.ts:78-82 | The engine's push is the thrust times the facing direction (sin(−angle), cos(angle)). It does not depend on the current velocity. |
| LanderPhysics.GravityEveryTick | src/physics.ts:83 | At zero thrust every engine state changes only the vertical speed, by −GRAVITY. |
| LanderPhysics.NormalPart | src/physics.ts:92 | The projection `u` is parallel to the normal (zero cross product) and has the velocity's dot product with it. |
| LanderPhysics.TangentPart | src/physics.ts:93 | The remainder `w` is orthogonal to the normal, keeps the velocity's cross product with it, and `u + w` is the velocity. |
| LanderPhysics.BounceOnNormal | src/physics.ts:92-94 | The velocity's component along the normal is turned round and scaled by the restitution. Its component across the normal is scaled by the friction. |
| LanderPhysics.Bounce | src/physics.ts:90-94 | Against the wall direction: the component along the wall is scaled by the friction. The component across the wall is reversed and scaled by the restitution. |
| LanderPhysics.BounceParts | src/physics.ts:92-93 | `u` is the normal scaled by dot(v, n)/dot(n, n), `w` is orthogonal to the normal, and `u + w` rebuilds the velocity. |
| LanderPhysics.BounceAnyDecomposition | src/physics.ts:92-94 | The result is `f w′ − r u′` for every split of the velocity into `u′` parallel to the normal and `w′` orthogonal to it, so it does not depend on how the projection is computed. |
| LanderPhysics.BounceMirror | src/physics.ts:115-116 | With the default coefficients of 1 the bounce is the mirror image `w − u`, and the squared speed is kept. |
| LanderPhysics.BounceMirrorTwice | src/physics.ts:90-94 | With the default coefficients, bouncing twice off the same wall gives the original velocity back. |
| LanderPhysics.BounceNoRestitution | src/physics.ts:94 | With restitution 0 the result is orthogonal to the normal and equals `f w`. |
| LanderPhysics.BounceNoFriction | src/physics.ts:94 | With friction 0 the result is orthogonal to the wall and equals `−r u`. |
| LanderPhysics.PerpendicularIsMultiple | src/physics.ts:91 | Any vector orthogonal to a non-zero wall is a multiple of its normal. |
| LanderPhysics.BounceAnyPerpendicular | src/physics.ts:91-94 | Bouncing on any non-zero vector orthogonal to the wall gives the same result as on `normalA`. So the result does not depend on the normal's sign or length. |
| LanderPhysics.BounceOnScaledNormal | src/physics.ts:92-94 | Scaling the normal by a non-zero factor leaves the bounce unchanged. |
| LanderPhysics.BounceOffHorizontal | src/physics.ts:90-94 | Off a horizontal wall, the horizontal speed is multiplied by the friction and the vertical speed by −restitution. |
| LanderPhysics.Collided | src/physics.ts:20-36 | The lander's geometry and horizontal position are never changed. With no overlap records nothing changes. |
| LanderPhysics.CollideFirstRecordOnly | src/physics.ts:21-23 | Only the first overlap record is used: the result equals the one for that record alone. |
| LanderPhysics.CollideVelocityAndLift | src/physics.ts:23-28 | The new velocity is the bounce off the struck segment with friction 0.3 and restitution 0.7. If that bounce is slower than 0.2 the velocity is zero. The lander is lifted by 0.3. |
| LanderPhysics.CollideSpin | src/physics.ts:30-34 | The rotation speed moves by 0.03 times the new speed: down when the contact point is left of the lander, up otherwise. It is unchanged exactly when the lander was stopped, and turns strictly otherwise. |
| LanderPhysics.CollideOnFlatGround | src/physics.ts:20-36 | A lander falling onto a horizontal segment leaves with a vertical speed that is not negative. |
| LanderPhysics.Physics.Collide | src/physics.ts:20-36 | Updating the lander in place gives exactly the state `Collided` computes from the old state. |
| LanderPhysics.LengthBelow | src/physics.ts:26 | For a Euclidean length, "length below the threshold" is "squared length below its square". |
| Geometry.NormalA | src/physics.ts:91 | The normal is orthogonal to the wall and as long as it. |
| Terrain.Mid | frontend/src/midpoint.ts:23-25 | The inserted value is the smaller of 1 and the displaced mean: the displaced mean whenever that is at most 1, and exactly 1 otherwise. |
| Terrain.SubdivideAt | frontend/src/midpoint.ts:18-28 | One pass over `s` appends 2·\|s\| − 1 values. Even positions hold `s` in order. Odd position 2i − 1 holds the clamped midpoint of `s[i−1]` and `s[i]`, displaced by the (i−1)-th draw of the pass. |
| Terrain.SubdivideAtMostOne | frontend/src/midpoint.ts:25-27 | A pass over values that are all at most 1 appends only values at most 1. |
| Terrain.NoPasses | frontend/src/midpoint.ts:8-11 | With no passes the output is the first `n` draws, in order. |
| Terrain.FirstPass | frontend/src/midpoint.ts:13-28 | After one pass the output has 2n − 1 values. The start values sit at the even positions, and the midpoints use the draws after the start values, with scale 0.5. |
| Terrain.OutputPrefix | frontend/src/midpoint.ts:17-31 | For 1 ≤ p ≤ q, the output after p passes is a prefix of the output after q passes: a later pass never changes what was already written. |
| Terrain.TerrainLengthIs | frontend/src/midpoint.ts:17-31 | The output's length is given by the length recurrence. |
| Terrain.LengthRecurrence | frontend/src/midpoint.ts:29 | The length is 2n − 1 after the first pass, and L becomes 3L − 1 on every later pass. |
| Terrain.LengthClosedForm | frontend/src/midpoint.ts:17-31 | After k ≥ 1 passes from n ≥ 1 start values, twice the length is (4n − 3)·3^(k−1) + 1. |
| Terrain.NotDoubling | frontend/src/midpoint.ts:29 | Two start values and two passes give 8 values, not the 5 that doubling would give. |
| Terrain.DrawsClosedForm | frontend/src/midpoint.ts:9-24 | Twice the number of draws consumed is the output length plus 2n minus the number of passes. |
| Terrain.DecayGrows | frontend/src/midpoint.ts:15-30 | The displacement scale is at least 0.5 and strictly grows from pass to pass. |
| Terrain.TerrainAtMostOne | frontend/src/midpoint.ts:25 | If every draw lies in [0, 1), every output value is at most 1. |
| Terrain.NoLowerClamp | frontend/src/midpoint.ts:23-25 | Three zero draws with two start values give the output [0, −0.25, 0], so values below 0 do occur. |
| Terrain.OnePassExample | frontend/src/midpoint.ts:7-33 | The draws 0.2, 0.8, 0.4, 0.5, 0.5 with three start values and one pass give [0.2, 0.5, 0.8, 0.6, 0.4]. |
| Terrain.SingleStartRepeats | frontend/src/midpoint.ts:17-31 | One start value and two passes use one draw and give that value twice. |
| Terrain.TerrainDeterministic | frontend/src/midpoint.ts:7-33 | The output depends only on the first `DrawsUsed` draws, so a fixed seed fixes the terrain. |
| Terrain.NextPass | frontend/src/midpoint.ts:17-31 | One pass turns the output, the draw position and the scale of pass p into those of pass p + 1. |
| Terrain.NumArray.Push | frontend/src/midpoint.ts:20-27 | Appending adds exactly the value at the end. |
| Terrain.Visit | frontend/src/midpoint.ts:18-28 | Index 0 appends the element and uses no draw. A later index appends the clamped midpoint with the previous element, then the element, and uses one draw. |
| Terrain.Pass | frontend/src/midpoint.ts:18-28 | The output array gains exactly the subdivision of the input array's contents at the start of the pass, even when both are the same array. One draw is used per element after the first. |
| Terrain.Iteration | frontend/src/midpoint.ts:17-31 | The body of the outer loop takes the output, the draw position and the scale of pass p to those of pass p + 1. |
| Terrain.StartValues | frontend/src/midpoint.ts:8-11 | A new array holds the first `numStartVals` draws in order, or none if the count is not positive. |
| Terrain.Midpoint | frontend/src/midpoint.ts:7-33 | The returned array is `Output(n, k)` and the draws consumed are `DrawsUsed(n, k)`. Here n and k are the loop counts of the two `for` loops. |

## Left out

- The geometry module's vector type, `normalA`, `length()` and `isOverlap` are not part of this model.
  - Vectors are a value type here.
  - `normalA` is taken to be the left-hand normal (−y, x). `BounceAnyPerpendicular` shows the bounce is the same for any non-zero perpendicular, so the choice does not matter.
  - `length()` is a function parameter. Where a lemma needs it to be the Euclidean length, the lemma requires that.
  - `isOverlap` is a function parameter that returns the collision records.
- The lander module is not part of this model. Only the fields the collision response reads and writes appear, in `LanderPhysics.Lander`.
  - Moving the lander's geometry along with its position is not modelled, because `collide` does not do it.
- `lander.position()` is taken to return the lander's own mutable position, so `+= 0.3` on it moves the lander (`src/physics.ts:28,30`). `LanderPhysics.Lander.position` is that field.
- `new Vector()` is taken to be the zero vector (`Geometry.Zero`), as used when the lander is stopped (`src/physics.ts:26`).
- `Math.sin` and `Math.cos` are function parameters of `Accelerate`. No trigonometric identity is assumed.
- The seeded random generator is replaced by an endless stream of draws `rng(i)`, the value of the i-th call. Seeding and the generator's algorithm are not modelled. The draws are assumed to lie in [0, 1) only where a lemma requires `UnitDraws`.
- All arithmetic is on exact reals, so IEEE 754 double rounding is not modelled. In particular, only the real-number counterpart of 0.5·1.1^p is carried for the scale.
- A zero-length struck segment makes the source divide 0 by 0 in `bounce`, which yields NaN. The model requires the first record's segment to have non-zero length (`Resolvable`).
- `bounce` is modelled only for a non-zero wall (`Dot(wall, wall) > 0`), for the same reason.
- Non-integer or non-finite loop bounds for `numStartVals` and `iterations` are not modelled. The bounds are integers, and a negative bound runs no iterations.
- `midval` is shared by all the `map` callbacks in the source. The model keeps it local to one callback: every callback writes it before reading it, so nothing is carried between them.
- The reference drawing code after `return` in `bounce` is dead code and not modelled. Its closing comment, `v′ = f w − r u`, is what `BounceAnyDecomposition` and `BounceMirror` state.
- Rendering, input handling, the game loop, networking and the rest of the frontend are not part of this model.
