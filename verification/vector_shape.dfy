/**
 * The state every game entity shares (position, velocity, movement and
 * facing angle, aliveness, outline), with plain field access standing in
 * for the get/set/inc accessors of the shared superclass.
 */
module VectorShape {
  import opened Geometry

  /** An entity's local-space outline: a polygon or a rectangle. */
  datatype Shape =
    | Outline(xpoints: seq<int>, ypoints: seq<int>, npoints: int)
    | Box(rect: Rect)

  datatype Body = Body(
    shape: Shape,
    x: real, y: real,
    velX: real, velY: real,
    moveAngle: real, faceAngle: real,
    alive: bool)

  /**
   * The state a freshly constructed entity starts from before its own
   * constructor runs: Java's field defaults (zero and false).
   */
  function Blank(shape: Shape): Body
  {
    Body(shape, 0.0, 0.0, 0.0, 0.0, 0.0, 0.0, false)
  }

  /**
   * The unit step along a heading in degrees (cosine and sine). The game
   * only ever scales and adds these, so they are left uninterpreted: any
   * pair of functions may be supplied.
   */
  datatype AngleMove = AngleMove(dx: real -> real, dy: real -> real)

  /**
   * A polygon built from two coordinate arrays, with the point count taken
   * from the first; `java.awt.Polygon` rejects a second array shorter than
   * the point count, and both of the game's outlines have equal lengths.
   */
  function PolygonOf(xs: seq<int>, ys: seq<int>): Shape
    requires |xs| == |ys|
  {
    Outline(xs, ys, |xs|)
  }
}
