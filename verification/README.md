# Asteroids applet: the per-tick simulation core in Dafny

This project models the simulation core of a small Java Asteroids applet. A
ship, a pool of 10000 bullets and 20 asteroids live in fixed arrays, and each
tick of the game loop runs four passes in a fixed order:

1. the ship moves and wraps around the screen with a 10-unit margin;
2. every live bullet moves and dies when it leaves the screen (bullets never wrap);
3. every live asteroid moves, wraps with a 20-unit margin and turns by its spin;
4. collisions are resolved.

In the collision pass, each live asteroid kills every live bullet whose point
lies in its 40×40 box, and dies with them. Then, if its box overlaps the
ship's 12×12 box, the asteroid dies and the ship is put back at (320, 240).
The key handler applies the player's intents: turn left, turn right, thrust,
and fire. Fire uses a circular cursor over the bullet pool. The model applies
each intent as one atomic step between ticks.

The model is value-style. Every entity is an immutable record:
- `Body` holds the state all entities share;
- `Asteroid` adds the spin.

The ship pass is a pure function (`Motion.UpdateShip`). The other three passes
are methods that loop over a sequence and return the new one, each proved
equal to a pure reference definition:
- `StepBullet` and `StepAsteroid` for the movement passes;
- the fold `CollideAll` for the collision pass.

The properties are proved about those reference definitions. Positions are
`real`, and the `(int)` cast is truncation toward zero (`Geometry.Trunc`).
Rectangle tests follow `java.awt`:
- point containment is half-open;
- overlap needs positive sizes and strict overlap.

Cosine and sine of a heading (`calcAngleMoveX`/`calcAngleMoveY`) are the two
fields of an `AngleMove` parameter, so any pair of functions may be supplied.
The screen size is a `Screen` parameter. The random draws of start-up are a
parameter constrained to the generator's ranges.

Some behaviours of the code differ from what one might expect, and the model follows the code in each:
- angles live in [0, 360] inclusive, because the fix-ups test `> 360`, and turning right from 355 reaches 360;
- because the fire cursor advances before it is used, a fresh pool's first fire uses slot 1 and slot 0 is first reused by fire number 10000, not 10001;
- the asteroid overflow fix-up sets the angle to the spin itself, not to the angle minus 360 (`Motion.SpinOverflowNotModular`);
- the underflow fix-up (360 minus the spin) cannot fire while spins are positive and angles are not negative (`Motion.SpinNoUnderflow`).

## Model

| member | source | states |
|---|---|---|
| `Geometry.Trunc` | assets/asteroids_java/Asteroid.java:26 | the `(int)` cast: the result is the integer within 1 of x on the side of zero, so negative positions near the wrap margins round up, not down |
| `Geometry.IntersectsIffCommonPoint` | assets/asteroids_java/Asteroids.java:294 | two boxes overlap exactly when some point lies in both under half-open containment |
| `ShipModel.NewShip` | assets/asteroids_java/Ship.java:15-30 | a new ship is alive, at rest at the origin, with a 6-vertex outline whose two coordinate arrays have equal length |
| `ShipModel.ShipBounds` | assets/asteroids_java/Ship.java:19-24 | the ship's box is 12×12 centred on the truncated position; it contains both the truncated centre and the exact position |
| `BulletModel.NewBullet` | assets/asteroids_java/Bullet.java:21-26 | a new bullet is dead and shaped as the unit square at the origin |
| `BulletModel.BulletBounds` | assets/asteroids_java/Bullet.java:14-19 | the bullet's box is 1×1 and contains its truncated position |
| `BulletModel.BulletBoundsSinglePoint` | assets/asteroids_java/Bullet.java:17 | an integer point lies in a bullet's box if and only if it is the truncated position |
| `AsteroidModel.SetRotationVelocity` | assets/asteroids_java/Asteroid.java:19-20 | reading the spin back after setting it gives the value set; nothing else changes |
| `AsteroidModel.NewAsteroid` | assets/asteroids_java/Asteroid.java:14-37 | a new asteroid is alive, has spin 0.0, and has an 11-vertex outline with equal-length coordinate arrays |
| `AsteroidModel.AsteroidBounds` | assets/asteroids_java/Asteroid.java:23-28 | the asteroid's box is 40×40 with top-left at the truncated position minus 20, and it contains the exact position |
| `Motion.Wrap` | assets/asteroids_java/Asteroids.java:199-212 | a wrapped coordinate always lies in the widened band; inside the band it is unchanged; leaving on one side re-enters at the opposite edge |
| `Motion.WrapIdempotent` | assets/asteroids_java/Asteroids.java:250-253 | wrapping an already wrapped coordinate changes nothing |
| `Motion.UpdateShip` | assets/asteroids_java/Asteroids.java:194-213 | after the ship pass, x is in [-10, width+10] and y in [-10, height+10]; a coordinate that stays in its band is exactly old plus velocity; only the position changes |
| `Motion.StepBullet` | assets/asteroids_java/Asteroids.java:219-234 | a dead bullet is untouched; a live one advances on both axes, y even when x already killed it; it survives if and only if the new position is on screen, edges included; no bullet comes alive |
| `Motion.UpdateBullets` | assets/asteroids_java/Asteroids.java:215-236 | the loop over the pool leaves every slot as `StepBullet` defines it |
| `Motion.SpinAngle` | assets/asteroids_java/Asteroids.java:265-271 | the angle fix-up: below 0 gives 360 minus the spin, above 360 gives the spin, 360 itself is kept; an angle in [0, 360] with a spin in [0, 360] stays in [0, 360] |
| `Motion.SpinOverflowNotModular` | assets/asteroids_java/Asteroids.java:270-271 | on overflow the fix-up is not a reduction modulo 360: it lands 360 minus the old angle beyond it |
| `Motion.SpinNoUnderflow` | assets/asteroids_java/Asteroids.java:268-271 | with a positive spin and an angle in [0, 360], the underflow branch never fires: the result is the sum, or the spin once the sum passes 360 |
| `Motion.StepAsteroid` | assets/asteroids_java/Asteroids.java:243-272 | a dead asteroid is neither moved nor rotated; a live one ends in the 20-unit band, moves exactly by its velocity where it stays in the band, keeps its angle in [0, 360], and keeps its velocity, spin and aliveness |
| `Motion.UpdateAsteroids` | assets/asteroids_java/Asteroids.java:238-274 | the loop over the asteroid array leaves every asteroid as `StepAsteroid` defines it |
| `Collisions.ResetShip` | assets/asteroids_java/Asteroids.java:297-301 | the crash reset puts the ship at (320, 240) with facing 0 and velocity 0, and keeps its movement angle |
| `Collisions.ResetShipIdempotent` | assets/asteroids_java/Asteroids.java:297-301 | resetting an already reset ship changes nothing |
| `Collisions.CrashDistance` | assets/asteroids_java/Asteroids.java:294 | an asteroid and the ship collide exactly when their truncated centres are less than 26 apart on both axes |
| `Collisions.Shoot` | assets/asteroids_java/Asteroids.java:284-291 | a bullet tested against a box dies exactly when it is alive and inside; nothing else about it changes |
| `Collisions.ShootAll` | assets/asteroids_java/Asteroids.java:282-293 | the bullet sweep kills exactly the live bullets inside the box and changes nothing else; the box counts as struck exactly when some live bullet was switched off |
| `Collisions.CollideOne` | assets/asteroids_java/Asteroids.java:280-303 | in one iteration, a dead asteroid changes nothing. For a live one: every live bullet inside the box dies, not just the first; the asteroid dies if and only if a bullet was inside or the boxes overlap; the ship is reset exactly on overlap, even if a bullet already killed the asteroid |
| `Collisions.CollideAll` | assets/asteroids_java/Asteroids.java:276-306 | the fold over the asteroid array keeps both array lengths |
| `Collisions.CollideAllBullets` | assets/asteroids_java/Asteroids.java:278-293 | the pass never moves a bullet; a bullet survives if and only if it was alive and no asteroid alive at the start of the pass has its point in its box |
| `Collisions.CollideAllRocks` | assets/asteroids_java/Asteroids.java:278-303 | the pass only switches asteroids off, and an asteroid dead at the start comes out unchanged |
| `Collisions.CollideAllSplit` | assets/asteroids_java/Asteroids.java:278-305 | the pass splits at any asteroid index: the later iterations run on exactly the ship and pool the earlier ones leave |
| `Collisions.CollideAllFate` | assets/asteroids_java/Asteroids.java:278-305 | asteroid m's fate is one iteration applied to the ship and pool the first m iterations leave, so bullets used up by earlier asteroids no longer count against it and the ship may already be reset |
| `Collisions.CollideAllShip` | assets/asteroids_java/Asteroids.java:294-302 | the ship ends either unchanged or reset. It is reset whenever a live asteroid overlaps its starting box, and it changes only if one does |
| `Collisions.ShootPool` | assets/asteroids_java/Asteroids.java:282-293 | the inner loop computes `ShootAll` and reports whether any bullet was hit |
| `Collisions.CollideRound` | assets/asteroids_java/Asteroids.java:280-303 | one iteration of the outer loop, written imperatively, agrees with `CollideOne` |
| `Collisions.CheckCollisions` | assets/asteroids_java/Asteroids.java:276-306 | the nested loops agree with `CollideAll`: alive flags only go from true to false, nothing else about a bullet or asteroid changes, and the ship is unchanged or reset |
| `Controls.RotateLeft` | assets/asteroids_java/Asteroids.java:316-320 | turning left subtracts 5, and a result below 0 becomes 355; only the facing changes, and it stays in [0, 360] |
| `Controls.RotateRight` | assets/asteroids_java/Asteroids.java:322-326 | turning right adds 5, and a result above 360 becomes 5; only the facing changes, and it stays in [0, 360] |
| `Controls.RotateRoundTrip` | assets/asteroids_java/Asteroids.java:316-326 | left then right restores a facing in [5, 360]; right then left restores one in [0, 355]; right from 355 reaches 360 |
| `Controls.ApplyThrust` | assets/asteroids_java/Asteroids.java:328-332 | thrust sets the movement angle to facing minus 90 and adds 0.1 times the unit step along it to the velocity; position and facing are untouched |
| `Controls.ThrustTwice` | assets/asteroids_java/Asteroids.java:328-332 | two thrusts at one facing add exactly twice the single-thrust velocity change |
| `Controls.NextCursor` | assets/asteroids_java/Asteroids.java:337-338 | the advanced cursor stays in [0, BULLETS-1] and is the successor modulo the pool size |
| `Controls.FireBullet` | assets/asteroids_java/Asteroids.java:334-350 | fire advances the cursor and changes only that slot, overwriting it even if alive. The new bullet is alive at the ship's position, heads along facing minus 90, and moves at the ship's velocity plus twice the unit step |
| `Controls.FireTimes` | assets/asteroids_java/Asteroids.java:337-349 | any run of fires keeps the world valid and leaves the ship and asteroids unchanged |
| `Controls.FireTimesCursor` | assets/asteroids_java/Asteroids.java:337-338 | after k fires the cursor has advanced k slots modulo the pool size |
| `Controls.FreshPoolSlotZero` | assets/asteroids_java/Asteroids.java:37 | from cursor 0, fire number k < BULLETS uses slot k, so slot 1 is used first and slot 0 keeps its contents |
| `Controls.FullLapUsesSlotZero` | assets/asteroids_java/Asteroids.java:337-339 | a run of fires ending on a multiple of the pool size ends on slot 0 and leaves a live bullet there: from a fresh pool, fire number BULLETS reuses slot 0 |
| `Controls.KeyPressed` | assets/asteroids_java/Asteroids.java:310-353 | every intent keeps the world valid and the angles in range; only fire touches the pool, and fire leaves the ship alone |
| `Game.SpawnAsteroid` | assets/asteroids_java/Asteroids.java:65-75 | a start-up asteroid is alive, with spin in [1, 3], position in [20, 619]×[20, 459], heading in [0, 359], and velocity the unit step along heading minus 90 |
| `Game.Init` | assets/asteroids_java/Asteroids.java:48-78 | start-up puts the ship at (320, 240) at rest, makes all bullets dead with the cursor at 0, and makes each asteroid alive with its draw's spin plus 1, its draw's position plus 20 (so in [20, 619]×[20, 459]), its draw's heading, and velocity the unit step along heading minus 90; the result satisfies the invariants later states keep |
| `Game.GameUpdate` | assets/asteroids_java/Asteroids.java:186-192 | the ship, bullet, asteroid and collision passes in that order. Afterwards every live bullet is on screen and every live asteroid is in its band; the ship is in its band or back at the centre; nothing comes alive and the invariants hold |

## Left out

- Rendering: drawing the ship, bullets and asteroids, the back buffer, the status text and `paint`. They are drawing calls with no effect on the simulation state.
- The thread-driven game loop: `start`, `run`, `stop` and the 20 ms sleep. They are timing and concurrency; only one tick (`GameUpdate`) is modelled.
- Interleaving of key events with a tick: the key handler runs on the window system's event thread and the tick on the game-loop thread, with no synchronisation, so a turn, thrust or fire can land in the middle of a tick. The model applies each intent atomically between ticks and does not model that interleaving.
- Key codes: the mapping from key codes to intents and the empty `keyReleased`/`keyTyped` are input plumbing. The four intents are modelled directly.
- The `showBounds` flag: nothing in the core sets it.
- Trigonometry and floating point. `calcAngleMoveX`/`calcAngleMoveY` are arbitrary functions supplied as a parameter. All arithmetic is exact over `real`, so double rounding, NaN and infinities are not modelled.
- Geometry.Trunc: does not model Java's saturation of out-of-range doubles or NaN mapping to 0, because positions stay within the wrap bands of a window-sized screen.
- Geometry.Intersects: does not model 32-bit overflow in `Rectangle.intersects`, for the same reason.
- The random generator: `init`'s draws are a parameter constrained to the generator's ranges.
- The shared superclass of the entities is not part of this model. Its accessors are taken to be plain field reads, writes and additions, and its fields are taken to start at Java's defaults (zero and false).
- Polygon geometry beyond the vertex arrays and their count: it is only used for rendering.
