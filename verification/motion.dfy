/**
 * The three movement passes of a tick: the ship and the asteroids move and
 * wrap around the screen edges, the bullets move and are culled at them.
 */
module Motion {
  import opened VectorShape
  import opened AsteroidModel

  /** The play field's size, as reported by the host window. */
  datatype Screen = Screen(width: nat, height: nat)

  const SHIP_MARGIN: nat := 10
  const ASTEROID_MARGIN: nat := 20

  /** A coordinate lies within the extent widened by the margin on both sides. */
  predicate InBand(p: real, extent: nat, margin: nat)
  {
    -(margin as real) <= p <= (extent + margin) as real
  }

  /**
   * Wraparound of one already-advanced coordinate: leaving the widened band
   * on one side re-enters it at the opposite edge; inside the band the
   * coordinate is left alone.
   */
  function Wrap(p: real, extent: nat, margin: nat): (r: real)
    ensures InBand(r, extent, margin)
    ensures InBand(p, extent, margin) ==> r == p
    ensures p < -(margin as real) ==> r == (extent + margin) as real
    ensures p > (extent + margin) as real ==> r == -(margin as real)
  {
    if p < -(margin as real) then (extent + margin) as real
    else if p > (extent + margin) as real then -(margin as real)
    else p
  }

  /** Wrapping twice is wrapping once: the result is already in the band. */
  lemma WrapIdempotent(p: real, extent: nat, margin: nat)
    ensures Wrap(Wrap(p, extent, margin), extent, margin) == Wrap(p, extent, margin)
  {
  }

  /**
   * One tick of ship motion: advance x by the x velocity and wrap with a
   * 10-unit margin, then the same for y. Nothing but the position changes.
   */
  function UpdateShip(s: Body, scr: Screen): (r: Body)
    ensures InBand(r.x, scr.width, SHIP_MARGIN) && InBand(r.y, scr.height, SHIP_MARGIN)
    ensures InBand(s.x + s.velX, scr.width, SHIP_MARGIN) ==> r.x == s.x + s.velX
    ensures InBand(s.y + s.velY, scr.height, SHIP_MARGIN) ==> r.y == s.y + s.velY
    ensures r == s.(x := r.x, y := r.y)
  {
    var s1 := s.(x := Wrap(s.x + s.velX, scr.width, SHIP_MARGIN));
    s1.(y := Wrap(s1.y + s1.velY, scr.height, SHIP_MARGIN))
  }

  /**
   * One tick of a single bullet. A dead bullet is untouched. A live one
   * advances on both axes (y moves even when the x test has already killed
   * it) and stays alive exactly when the new position is inside the screen,
   * edges included. Bullets never wrap and never come back to life.
   */
  function StepBullet(b: Body, scr: Screen): (r: Body)
    ensures !b.alive ==> r == b
    ensures r.alive ==> b.alive && 0.0 <= r.x <= scr.width as real && 0.0 <= r.y <= scr.height as real
    ensures b.alive ==> r.x == b.x + b.velX && r.y == b.y + b.velY
    ensures b.alive ==> (r.alive <==> InBand(r.x, scr.width, 0) && InBand(r.y, scr.height, 0))
    ensures r == b.(x := r.x, y := r.y, alive := r.alive)
  {
    if !b.alive then b
    else
      var x := b.x + b.velX;
      var aliveAfterX := !(x < 0.0 || x > scr.width as real);
      var y := b.y + b.velY;
      var aliveAfterY := aliveAfterX && !(y < 0.0 || y > scr.height as real);
      b.(x := x, y := y, alive := aliveAfterY)
  }

  /** The bullet pass: every slot of the pool, in order, stepped as by StepBullet. */
  method UpdateBullets(bs: seq<Body>, scr: Screen) returns (r: seq<Body>)
    ensures |r| == |bs|
    ensures forall n :: 0 <= n < |bs| ==> r[n] == StepBullet(bs[n], scr)
  {
    r := bs;
    var n := 0;
    while n < |r|
      invariant 0 <= n <= |r| == |bs|
      invariant forall i :: 0 <= i < n ==> r[i] == StepBullet(bs[i], scr)
      invariant forall i :: n <= i < |r| ==> r[i] == bs[i]
    {
      if r[n].alive {
        var b := r[n].(x := r[n].x + r[n].velX);
        if b.x < 0.0 || b.x > scr.width as real {
          b := b.(alive := false);
        }
        b := b.(y := b.y + b.velY);
        if b.y < 0.0 || b.y > scr.height as real {
          b := b.(alive := false);
        }
        r := r[n := b];
      }
      n := n + 1;
    }
  }

  /**
   * The asteroid angle fix-up after adding the spin: below 0 it becomes
   * 360 minus the spin, above 360 it becomes the spin itself, and 360 is
   * kept. For a spin in [0, 360] an angle in [0, 360] stays there.
   */
  function SpinAngle(angle: real, rotVel: real): (r: real)
    ensures 0.0 <= angle + rotVel <= 360.0 ==> r == angle + rotVel
    ensures angle + rotVel < 0.0 ==> r == 360.0 - rotVel
    ensures angle + rotVel > 360.0 ==> r == rotVel
    ensures 0.0 <= angle <= 360.0 && 0.0 <= rotVel <= 360.0 ==> 0.0 <= r <= 360.0
  {
    var a := angle + rotVel;
    if a < 0.0 then 360.0 - rotVel
    else if a > 360.0 then rotVel
    else a
  }

  /**
   * The fix-up is not a modular reduction: on overflow the result lies
   * 360 - angle degrees beyond angle + rotVel - 360, so a spin of 3 from
   * 359 lands on 3 rather than on 2.
   */
  lemma SpinOverflowNotModular(angle: real, rotVel: real)
    requires 0.0 <= angle < 360.0 && angle + rotVel > 360.0
    ensures SpinAngle(angle, rotVel) != angle + rotVel - 360.0
    ensures SpinAngle(angle, rotVel) - (angle + rotVel - 360.0) == 360.0 - angle
  {
  }

  /**
   * With a positive spin and an angle that is not negative, the underflow
   * branch never fires: the fix-up either keeps the sum or, past 360,
   * resets to the spin.
   */
  lemma SpinNoUnderflow(angle: real, rotVel: real)
    requires 0.0 <= angle <= 360.0 && 0.0 < rotVel
    ensures SpinAngle(angle, rotVel) == if angle + rotVel > 360.0 then rotVel else angle + rotVel
  {
  }

  /**
   * One tick of a single asteroid. A dead one is neither moved nor rotated.
   * A live one advances and wraps with a 20-unit margin on each axis and
   * turns by its spin; its velocity, spin and aliveness are unchanged.
   */
  function StepAsteroid(a: Asteroid, scr: Screen): (r: Asteroid)
    ensures !a.body.alive ==> r == a
    ensures a.body.alive ==> InBand(r.body.x, scr.width, ASTEROID_MARGIN) && InBand(r.body.y, scr.height, ASTEROID_MARGIN)
    ensures a.body.alive && InBand(a.body.x + a.body.velX, scr.width, ASTEROID_MARGIN) ==> r.body.x == a.body.x + a.body.velX
    ensures a.body.alive && InBand(a.body.y + a.body.velY, scr.height, ASTEROID_MARGIN) ==> r.body.y == a.body.y + a.body.velY
    ensures 0.0 <= a.rotVel <= 360.0 && 0.0 <= a.body.moveAngle <= 360.0 ==> 0.0 <= r.body.moveAngle <= 360.0
    ensures r.rotVel == a.rotVel
    ensures r.body == a.body.(x := r.body.x, y := r.body.y, moveAngle := r.body.moveAngle)
  {
    if !a.body.alive then a
    else
      var b := a.body;
      var b1 := b.(x := Wrap(b.x + b.velX, scr.width, ASTEROID_MARGIN));
      var b2 := b1.(y := Wrap(b1.y + b1.velY, scr.height, ASTEROID_MARGIN));
      var b3 := b2.(moveAngle := SpinAngle(b2.moveAngle, GetRotationVelocity(a)));
      a.(body := b3)
  }

  /** The asteroid pass: every asteroid, in order, stepped as by StepAsteroid. */
  method UpdateAsteroids(rocks: seq<Asteroid>, scr: Screen) returns (r: seq<Asteroid>)
    ensures |r| == |rocks|
    ensures forall m :: 0 <= m < |rocks| ==> r[m] == StepAsteroid(rocks[m], scr)
  {
    r := rocks;
    var m := 0;
    while m < |r|
      invariant 0 <= m <= |r| == |rocks|
      invariant forall i :: 0 <= i < m ==> r[i] == StepAsteroid(rocks[i], scr)
      invariant forall i :: m <= i < |r| ==> r[i] == rocks[i]
    {
      if r[m].body.alive {
        var b := r[m].body;
        b := b.(x := b.x + b.velX);
        if b.x < -(ASTEROID_MARGIN as real) {
          b := b.(x := (scr.width + ASTEROID_MARGIN) as real);
        } else if b.x > (scr.width + ASTEROID_MARGIN) as real {
          b := b.(x := -(ASTEROID_MARGIN as real));
        }
        b := b.(y := b.y + b.velY);
        if b.y < -(ASTEROID_MARGIN as real) {
          b := b.(y := (scr.height + ASTEROID_MARGIN) as real);
        } else if b.y > (scr.height + ASTEROID_MARGIN) as real {
          b := b.(y := -(ASTEROID_MARGIN as real));
        }
        var spin := GetRotationVelocity(r[m]);
        b := b.(moveAngle := b.moveAngle + spin);
        if b.moveAngle < 0.0 {
          b := b.(moveAngle := 360.0 - spin);
        } else if b.moveAngle > 360.0 {
          b := b.(moveAngle := spin);
        }
        r := r[m := r[m].(body := b)];
      }
      m := m + 1;
    }
  }
}
