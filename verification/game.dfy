/**
 * Start-up and the per-tick update: ship, then bullets, then asteroids,
 * then collisions, in that order.
 */
module Game {
  import opened VectorShape
  import opened ShipModel
  import opened BulletModel
  import opened AsteroidModel
  import opened Motion
  import opened Collisions
  import opened GameState

  /**
   * The four random draws start-up makes for one asteroid, as returned by
   * the generator before any offset: spin in [0, 3), x in [0, 600),
   * y in [0, 440), heading in [0, 360).
   */
  datatype Draw = Draw(spin: int, x: int, y: int, angle: int)

  predicate DrawInRange(d: Draw)
  {
    && 0 <= d.spin < 3
    && 0 <= d.x < 600
    && 0 <= d.y < 440
    && 0 <= d.angle < 360
  }

  /**
   * One asteroid as start-up makes it: a new asteroid given a spin of
   * 1 to 3, a position 20 in from the top-left, a heading, and the unit
   * velocity along the heading minus 90.
   */
  function SpawnAsteroid(d: Draw, am: AngleMove): (a: Asteroid)
    requires DrawInRange(d)
    ensures a.body.alive
    ensures 1.0 <= a.rotVel <= 3.0
    ensures 20.0 <= a.body.x <= 619.0 && 20.0 <= a.body.y <= 459.0
    ensures 0.0 <= a.body.moveAngle <= 359.0
    ensures a.body.velX == am.dx(a.body.moveAngle - 90.0) && a.body.velY == am.dy(a.body.moveAngle - 90.0)
  {
    var a := SetRotationVelocity(NewAsteroid(), (d.spin + 1) as real);
    var b := a.body.(x := d.x as real + 20.0, y := d.y as real + 20.0, moveAngle := d.angle as real);
    var heading := b.moveAngle - 90.0;
    a.(body := b.(velX := am.dx(heading), velY := am.dy(heading)))
  }

  /**
   * The world at start-up: the ship at the centre, a pool of dead bullets
   * with the cursor at 0, and one spawned asteroid per draw. It satisfies
   * the invariants every later state keeps.
   */
  function Init(draws: seq<Draw>, am: AngleMove): (w: World)
    requires |draws| == ASTEROIDS
    requires forall i :: 0 <= i < |draws| ==> DrawInRange(draws[i])
    ensures Valid(w) && AnglesInRange(w)
    ensures w.currentBullet == 0
    ensures forall n :: 0 <= n < |w.bullets| ==> !w.bullets[n].alive
    ensures w.ship.alive && w.ship.x == CENTRE_X && w.ship.y == CENTRE_Y
    ensures w.ship.velX == 0.0 && w.ship.velY == 0.0 && w.ship.faceAngle == 0.0
    ensures forall m :: 0 <= m < |w.rocks| ==>
      && w.rocks[m].body.alive
      && w.rocks[m].rotVel == (draws[m].spin + 1) as real
      && w.rocks[m].body.x == draws[m].x as real + 20.0 && w.rocks[m].body.y == draws[m].y as real + 20.0
      && 20.0 <= w.rocks[m].body.x <= 619.0 && 20.0 <= w.rocks[m].body.y <= 459.0
      && w.rocks[m].body.moveAngle == draws[m].angle as real
      && w.rocks[m].body.velX == am.dx(w.rocks[m].body.moveAngle - 90.0)
      && w.rocks[m].body.velY == am.dy(w.rocks[m].body.moveAngle - 90.0)
  {
    var ship := NewShip().(x := CENTRE_X, y := CENTRE_Y);
    var bullets := seq(BULLETS, _ => NewBullet());
    var rocks := seq(ASTEROIDS, m requires 0 <= m < ASTEROIDS => SpawnAsteroid(draws[m], am));
    World(ship, bullets, rocks, 0)
  }

  /** The bullet pass as a function: every slot stepped. */
  function StepBullets(bs: seq<Body>, scr: Screen): seq<Body>
  {
    seq(|bs|, n requires 0 <= n < |bs| => StepBullet(bs[n], scr))
  }

  /** The asteroid pass as a function: every asteroid stepped. */
  function StepAsteroids(rocks: seq<Asteroid>, scr: Screen): seq<Asteroid>
  {
    seq(|rocks|, m requires 0 <= m < |rocks| => StepAsteroid(rocks[m], scr))
  }

  /** One tick as a pure function of the world and the screen size. */
  function Tick(w: World, scr: Screen): World
  {
    var f := CollideAll(UpdateShip(w.ship, scr), StepBullets(w.bullets, scr), StepAsteroids(w.rocks, scr));
    World(f.ship, f.bullets, f.rocks, w.currentBullet)
  }

  /**
   * One tick as the game loop runs it. Afterwards every live bullet is on
   * the screen, every live asteroid is within the 20-unit band, and the ship
   * is within the 10-unit band unless a crash has just put it back at the
   * centre. Nothing comes back to life, and the invariants are kept.
   */
  method GameUpdate(w: World, scr: Screen) returns (r: World)
    requires Valid(w)
    ensures r == Tick(w, scr)
    ensures Valid(r) && r.currentBullet == w.currentBullet
    ensures AnglesInRange(w) ==> AnglesInRange(r)
    ensures forall n :: 0 <= n < |r.bullets| && r.bullets[n].alive ==>
      w.bullets[n].alive && InBand(r.bullets[n].x, scr.width, 0) && InBand(r.bullets[n].y, scr.height, 0)
    ensures forall m :: 0 <= m < |r.rocks| && r.rocks[m].body.alive ==>
      w.rocks[m].body.alive && InBand(r.rocks[m].body.x, scr.width, ASTEROID_MARGIN) && InBand(r.rocks[m].body.y, scr.height, ASTEROID_MARGIN)
    ensures || (InBand(r.ship.x, scr.width, SHIP_MARGIN) && InBand(r.ship.y, scr.height, SHIP_MARGIN))
            || (r.ship.x == CENTRE_X && r.ship.y == CENTRE_Y)
  {
    var ship := UpdateShip(w.ship, scr);
    var bullets := UpdateBullets(w.bullets, scr);
    var rocks := UpdateAsteroids(w.rocks, scr);
    assert bullets == StepBullets(w.bullets, scr);
    assert rocks == StepAsteroids(w.rocks, scr);
    var ship', bullets', rocks' := CheckCollisions(ship, bullets, rocks);
    r := World(ship', bullets', rocks', w.currentBullet);
    if AnglesInRange(w) {
      forall m | 0 <= m < |r.rocks|
        ensures 1.0 <= r.rocks[m].rotVel <= 3.0 && 0.0 <= r.rocks[m].body.moveAngle <= 360.0
      {
        assert r.rocks[m].rotVel == rocks[m].rotVel;
        assert r.rocks[m].body.moveAngle == rocks[m].body.moveAngle;
      }
    }
  }
}
