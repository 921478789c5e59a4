/** A projectile: a one-pixel square, born inactive. */
module BulletModel {
  import opened Geometry
  import opened VectorShape

  /** A new bullet: the unit square at the origin as its shape, and dead. */
  function NewBullet(): (b: Body)
    ensures !b.alive
    ensures b.shape == Box(Rect(0, 0, 1, 1))
  {
    Blank(Box(Rect(0, 0, 1, 1)))
  }

  /**
   * The bullet's bounding box: the unit square at the truncated position.
   * Under half-open containment it holds exactly one integer point.
   */
  function BulletBounds(b: Body): (r: Rect)
    ensures r.width == 1 && r.height == 1
    ensures Contains(r, Trunc(b.x) as real, Trunc(b.y) as real)
  {
    Rect(Trunc(b.x), Trunc(b.y), 1, 1)
  }

  /** The only integer point inside a bullet's bounds is its truncated position. */
  lemma BulletBoundsSinglePoint(b: Body, i: int, j: int)
    ensures Contains(BulletBounds(b), i as real, j as real) <==> i == Trunc(b.x) && j == Trunc(b.y)
  {
  }
}
