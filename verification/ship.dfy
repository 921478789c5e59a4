/** The player's craft: a six-vertex outline and a 12 by 12 bounding box. */
module ShipModel {
  import opened Geometry
  import opened VectorShape

  const SHIP_X: seq<int> := [-6, -3, 0, 3, 6, 0]
  const SHIP_Y: seq<int> := [6, 7, 7, 7, 6, -7]

  /** A new ship: the six-vertex outline, alive, everything else at its default. */
  function NewShip(): (s: Body)
    ensures s.alive
    ensures s.shape.Outline? && s.shape.npoints == |s.shape.xpoints| == |s.shape.ypoints| == 6
    ensures s.x == 0.0 && s.y == 0.0 && s.velX == 0.0 && s.velY == 0.0
  {
    Blank(PolygonOf(SHIP_X, SHIP_Y)).(alive := true)
  }

  /**
   * The ship's bounding box: 12 by 12, centred on the truncated position.
   * It always contains both the truncated centre and the exact position.
   */
  function ShipBounds(s: Body): (r: Rect)
    ensures r.width == 12 && r.height == 12
    ensures r.x + 6 == Trunc(s.x) && r.y + 6 == Trunc(s.y)
    ensures Contains(r, Trunc(s.x) as real, Trunc(s.y) as real)
    ensures Contains(r, s.x, s.y)
  {
    Rect(Trunc(s.x) - 6, Trunc(s.y) - 6, 12, 12)
  }
}
