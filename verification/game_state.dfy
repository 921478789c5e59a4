/**
 * The game's whole simulation state: the ship, the fixed bullet pool with
 * its fire cursor, and the fixed asteroid array.
 */
module GameState {
  import opened VectorShape
  import opened AsteroidModel

  const ASTEROIDS: nat := 20
  const BULLETS: nat := 10000

  /** Where the ship starts and where a crash puts it back. */
  const CENTRE_X: real := 320.0
  const CENTRE_Y: real := 240.0

  datatype World = World(ship: Body, bullets: seq<Body>, rocks: seq<Asteroid>, currentBullet: int)

  /** The pools have their fixed sizes and the fire cursor indexes the bullet pool. */
  predicate Valid(w: World)
  {
    && |w.bullets| == BULLETS
    && |w.rocks| == ASTEROIDS
    && 0 <= w.currentBullet < BULLETS
  }

  /**
   * The angle ranges every reachable state keeps: the ship's facing and
   * every asteroid's movement angle in [0, 360], every spin in [1, 3].
   */
  predicate AnglesInRange(w: World)
  {
    && 0.0 <= w.ship.faceAngle <= 360.0
    && forall m :: 0 <= m < |w.rocks| ==>
         1.0 <= w.rocks[m].rotVel <= 3.0 && 0.0 <= w.rocks[m].body.moveAngle <= 360.0
  }
}
