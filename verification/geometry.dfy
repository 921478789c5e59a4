/**
 * The two pieces of java.awt the game's collision logic rests on: the
 * narrowing `(int)` cast of a double, and integer rectangles with their
 * point-containment and overlap tests.
 */
module Geometry {

  /** The `(int)` cast of a double: truncation toward zero, not floor. */
  function Trunc(x: real): (n: int)
    ensures 0.0 <= x ==> n as real <= x < n as real + 1.0
    ensures x < 0.0 ==> n as real - 1.0 < x <= n as real
  {
    if 0.0 <= x then x.Floor else -((-x).Floor)
  }

  /** An axis-aligned integer rectangle: top-left corner and size. */
  datatype Rect = Rect(x: int, y: int, width: int, height: int)

  /**
   * Containment of a double-valued point, half-open on both axes: the left
   * and top edges belong to the rectangle, the right and bottom edges do not.
   */
  predicate Contains(r: Rect, px: real, py: real)
  {
    && r.x as real <= px < (r.x + r.width) as real
    && r.y as real <= py < (r.y + r.height) as real
  }

  /**
   * Overlap of two rectangles: both must have positive size and their
   * interiors must meet (touching edges do not count).
   */
  predicate Intersects(a: Rect, b: Rect)
  {
    && 0 < a.width && 0 < a.height && 0 < b.width && 0 < b.height
    && b.x < a.x + a.width && a.x < b.x + b.width
    && b.y < a.y + a.height && a.y < b.y + b.height
  }

  /**
   * The overlap test agrees with half-open containment: two rectangles
   * intersect exactly when some point lies in both.
   */
  lemma IntersectsIffCommonPoint(a: Rect, b: Rect)
    ensures Intersects(a, b) <==> exists px: real, py: real :: Contains(a, px, py) && Contains(b, px, py)
  {
    if Intersects(a, b) {
      var px := if a.x < b.x then b.x else a.x;
      var py := if a.y < b.y then b.y else a.y;
      assert Contains(a, px as real, py as real) && Contains(b, px as real, py as real);
    }
  }
}
