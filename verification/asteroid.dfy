/** An obstacle: an eleven-vertex outline, a spin rate and a 40 by 40 bounding box. */
module AsteroidModel {
  import opened Geometry
  import opened VectorShape

  const ASTEROID_X: seq<int> := [-20, -13, 0, 20, 22, 20, 12, 2, -10, -22, -16]
  const ASTEROID_Y: seq<int> := [20, 23, 17, 20, 16, -20, -22, -14, -17, -20, -5]

  /** An asteroid is the shared entity state plus its rotation velocity in degrees per tick. */
  datatype Asteroid = Asteroid(body: Body, rotVel: real)

  function GetRotationVelocity(a: Asteroid): real
  {
    a.rotVel
  }

  /** Sets the spin rate; reading it back gives the value set, and nothing else changes. */
  function SetRotationVelocity(a: Asteroid, v: real): (r: Asteroid)
    ensures GetRotationVelocity(r) == v
    ensures r.body == a.body
  {
    a.(rotVel := v)
  }

  /** A new asteroid: the eleven-vertex outline, alive, not spinning. */
  function NewAsteroid(): (a: Asteroid)
    ensures a.body.alive
    ensures GetRotationVelocity(a) == 0.0
    ensures a.body.shape.Outline?
    ensures a.body.shape.npoints == |a.body.shape.xpoints| == |a.body.shape.ypoints| == 11
  {
    SetRotationVelocity(Asteroid(Blank(PolygonOf(ASTEROID_X, ASTEROID_Y)).(alive := true), 0.0), 0.0)
  }

  /**
   * The asteroid's bounding box: 40 by 40, centred on the truncated
   * position, so it always contains the exact position.
   */
  function AsteroidBounds(a: Asteroid): (r: Rect)
    ensures r.width == 40 && r.height == 40
    ensures r.x + 20 == Trunc(a.body.x) && r.y + 20 == Trunc(a.body.y)
    ensures Contains(r, a.body.x, a.body.y)
  {
    Rect(Trunc(a.body.x) - 20, Trunc(a.body.y) - 20, 40, 40)
  }
}
