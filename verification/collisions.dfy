/**
 * The collision pass of a tick. For each live asteroid in array order,
 * every live bullet whose point lies in the asteroid's box dies together
 * with the asteroid; then, if the asteroid's box overlaps the ship's, the
 * asteroid dies and the ship is put back at the centre.
 */
module Collisions {
  import opened Geometry
  import opened VectorShape
  import opened ShipModel
  import opened AsteroidModel
  import opened GameState

  /**
   * The ship after a crash: back at the centre, facing 0, at rest. The
   * movement angle and the rest of its state are kept.
   */
  function ResetShip(s: Body): (r: Body)
    ensures r.x == CENTRE_X && r.y == CENTRE_Y
    ensures r.faceAngle == 0.0 && r.velX == 0.0 && r.velY == 0.0
    ensures r.moveAngle == s.moveAngle && r.alive == s.alive && r.shape == s.shape
  {
    s.(x := CENTRE_X, y := CENTRE_Y, faceAngle := 0.0, velX := 0.0, velY := 0.0)
  }

  /** Resetting an already reset ship changes nothing. */
  lemma ResetShipIdempotent(s: Body)
    ensures ResetShip(ResetShip(s)) == ResetShip(s)
  {
  }

  /**
   * An asteroid and the ship collide exactly when their truncated centres
   * are less than 26 apart on both axes (half of 40 plus half of 12).
   */
  lemma CrashDistance(a: Asteroid, s: Body)
    ensures Intersects(AsteroidBounds(a), ShipBounds(s)) <==>
      && -26 < Trunc(a.body.x) - Trunc(s.x) < 26
      && -26 < Trunc(a.body.y) - Trunc(s.y) < 26
  {
  }

  /** A bullet is in the box when it is alive and its point lies inside. */
  predicate Inside(b: Body, box: Rect)
  {
    b.alive && Contains(box, b.x, b.y)
  }

  /** Some bullet of the pool is alive and inside the box. */
  predicate Struck(bs: seq<Body>, box: Rect)
  {
    exists n | 0 <= n < |bs| :: Inside(bs[n], box)
  }

  /** A bullet tested against one box: it dies when it is inside, and nothing else about it changes. */
  function Shoot(b: Body, box: Rect): (r: Body)
    ensures r.alive <==> b.alive && !Contains(box, b.x, b.y)
    ensures r == b.(alive := r.alive)
  {
    if Inside(b, box) then b.(alive := false) else b
  }

  /**
   * Every bullet of the pool tested against one box: exactly the live
   * bullets inside die, nothing else about any bullet changes, and the box
   * was struck exactly when some live bullet was switched off.
   */
  function ShootAll(bs: seq<Body>, box: Rect): (r: seq<Body>)
    ensures |r| == |bs|
    ensures forall n :: 0 <= n < |bs| ==> (r[n].alive <==> bs[n].alive && !Contains(box, bs[n].x, bs[n].y))
    ensures forall n :: 0 <= n < |bs| ==> r[n] == bs[n].(alive := r[n].alive)
    ensures Struck(bs, box) <==> exists n :: 0 <= n < |bs| && bs[n].alive && !r[n].alive
  {
    seq(|bs|, n requires 0 <= n < |bs| => Shoot(bs[n], box))
  }

  /** The state one asteroid's iteration of the pass reads and writes. */
  datatype Round = Round(ship: Body, bullets: seq<Body>, rock: Asteroid)

  /**
   * One iteration of the outer loop. A dead asteroid is skipped. For a live
   * one, the bullet loop runs over the whole pool (the `continue` after a hit
   * only moves on to the next bullet), so every live bullet inside the box
   * dies. The ship test follows regardless of whether a bullet already killed
   * the asteroid, against the ship as it is at that moment.
   */
  function CollideOne(ship: Body, bs: seq<Body>, a: Asteroid): (r: Round)
    ensures |r.bullets| == |bs|
    ensures !a.body.alive ==> r == Round(ship, bs, a)
    ensures a.body.alive ==> forall n :: 0 <= n < |bs| ==>
      (r.bullets[n].alive <==> bs[n].alive && !Contains(AsteroidBounds(a), bs[n].x, bs[n].y))
    ensures forall n :: 0 <= n < |bs| ==> r.bullets[n] == bs[n].(alive := r.bullets[n].alive)
    ensures a.body.alive ==>
      (r.rock.body.alive <==> !Struck(bs, AsteroidBounds(a)) && !Intersects(AsteroidBounds(a), ShipBounds(ship)))
    ensures r.rock == a.(body := a.body.(alive := r.rock.body.alive))
    ensures a.body.alive && Intersects(AsteroidBounds(a), ShipBounds(ship)) ==> r.ship == ResetShip(ship)
    ensures !(a.body.alive && Intersects(AsteroidBounds(a), ShipBounds(ship))) ==> r.ship == ship
  {
    if !a.body.alive then Round(ship, bs, a)
    else
      var box := AsteroidBounds(a);
      var bs' := ShootAll(bs, box);
      var a1 := if Struck(bs, box) then a.(body := a.body.(alive := false)) else a;
      if Intersects(box, ShipBounds(ship)) then
        Round(ResetShip(ship), bs', a1.(body := a1.body.(alive := false)))
      else
        Round(ship, bs', a1)
  }

  /** The whole state the pass works on. */
  datatype Field = Field(ship: Body, bullets: seq<Body>, rocks: seq<Asteroid>)

  /** Puts the asteroids already processed in front of the outcome for the rest. */
  function Prepend(done: seq<Asteroid>, f: Field): Field
  {
    f.(rocks := done + f.rocks)
  }

  /** The collision pass, asteroid by asteroid, as a fold over the asteroid array. */
  function CollideAll(ship: Body, bs: seq<Body>, rocks: seq<Asteroid>): (r: Field)
    ensures |r.bullets| == |bs| && |r.rocks| == |rocks|
    decreases |rocks|
  {
    if rocks == [] then Field(ship, bs, [])
    else
      var first := CollideOne(ship, bs, rocks[0]);
      var rest := CollideAll(first.ship, first.bullets, rocks[1..]);
      Prepend([first.rock], rest)
  }

  /** Some live asteroid of the array has the point in its box. */
  ghost predicate Covered(rocks: seq<Asteroid>, px: real, py: real)
  {
    exists m :: 0 <= m < |rocks| && rocks[m].body.alive && Contains(AsteroidBounds(rocks[m]), px, py)
  }

  /**
   * Bullets: the pass only switches bullets off, never moves them, and a
   * bullet survives exactly when it was alive and no asteroid alive at the
   * start of the pass has its point in its box.
   */
  lemma {:induction false} CollideAllBullets(ship: Body, bs: seq<Body>, rocks: seq<Asteroid>)
    ensures var r := CollideAll(ship, bs, rocks);
      forall n :: 0 <= n < |bs| ==>
        && r.bullets[n] == bs[n].(alive := r.bullets[n].alive)
        && (r.bullets[n].alive <==> bs[n].alive && !Covered(rocks, bs[n].x, bs[n].y))
    decreases |rocks|
  {
    if rocks != [] {
      var first := CollideOne(ship, bs, rocks[0]);
      CollideAllBullets(first.ship, first.bullets, rocks[1..]);
      var r := CollideAll(ship, bs, rocks);
      forall n | 0 <= n < |bs|
        ensures r.bullets[n] == bs[n].(alive := r.bullets[n].alive)
        ensures r.bullets[n].alive <==> bs[n].alive && !Covered(rocks, bs[n].x, bs[n].y)
      {
        var px, py := bs[n].x, bs[n].y;
        if Covered(rocks, px, py) {
          var m :| 0 <= m < |rocks| && rocks[m].body.alive && Contains(AsteroidBounds(rocks[m]), px, py);
          if m > 0 {
            assert rocks[1..][m - 1] == rocks[m];
            assert Covered(rocks[1..], px, py);
          }
        }
        if Covered(rocks[1..], px, py) {
          var m :| 0 <= m < |rocks[1..]| && rocks[1..][m].body.alive && Contains(AsteroidBounds(rocks[1..][m]), px, py);
          assert rocks[m + 1] == rocks[1..][m];
        }
      }
    }
  }

  /**
   * Asteroids: the pass only switches asteroids off, and an asteroid that is
   * dead when the pass starts comes out exactly as it went in.
   */
  lemma {:induction false} CollideAllRocks(ship: Body, bs: seq<Body>, rocks: seq<Asteroid>)
    ensures var r := CollideAll(ship, bs, rocks);
      forall m :: 0 <= m < |rocks| ==>
        && r.rocks[m] == rocks[m].(body := rocks[m].body.(alive := r.rocks[m].body.alive))
        && (r.rocks[m].body.alive ==> rocks[m].body.alive)
        && (!rocks[m].body.alive ==> r.rocks[m] == rocks[m])
    decreases |rocks|
  {
    if rocks != [] {
      var first := CollideOne(ship, bs, rocks[0]);
      CollideAllRocks(first.ship, first.bullets, rocks[1..]);
      var r := CollideAll(ship, bs, rocks);
      forall m | 1 <= m < |rocks|
        ensures r.rocks[m] == CollideAll(first.ship, first.bullets, rocks[1..]).rocks[m - 1]
        ensures rocks[m] == rocks[1..][m - 1]
      {
      }
    }
  }

  /**
   * The pass splits at any asteroid index: the first m iterations run on
   * the initial state, and the rest run on the state they leave behind.
   */
  lemma {:induction false} CollideAllSplit(ship: Body, bs: seq<Body>, rocks: seq<Asteroid>, m: nat)
    requires m <= |rocks|
    ensures var pre := CollideAll(ship, bs, rocks[..m]);
      CollideAll(ship, bs, rocks) == Prepend(pre.rocks, CollideAll(pre.ship, pre.bullets, rocks[m..]))
    decreases m
  {
    if m == 0 {
      assert rocks[..0] == [] && rocks[0..] == rocks;
      assert [] + CollideAll(ship, bs, rocks).rocks == CollideAll(ship, bs, rocks).rocks;
    } else {
      var first := CollideOne(ship, bs, rocks[0]);
      CollideAllSplit(first.ship, first.bullets, rocks[1..], m - 1);
      assert rocks[..m][0] == rocks[0];
      assert rocks[..m][1..] == rocks[1..][..m - 1];
      assert rocks[1..][m - 1..] == rocks[m..];
      var pre := CollideAll(first.ship, first.bullets, rocks[1..][..m - 1]);
      var post := CollideAll(pre.ship, pre.bullets, rocks[m..]);
      assert [first.rock] + (pre.rocks + post.rocks) == ([first.rock] + pre.rocks) + post.rocks;
    }
  }

  /**
   * Which asteroids die: asteroid m meets the ship and the bullets as the
   * first m iterations left them. So a bullet already used up by an earlier
   * asteroid no longer counts against it, and it is tested against the ship
   * as already reset.
   */
  lemma CollideAllFate(ship: Body, bs: seq<Body>, rocks: seq<Asteroid>, m: nat)
    requires m < |rocks|
    ensures var pre := CollideAll(ship, bs, rocks[..m]);
      CollideAll(ship, bs, rocks).rocks[m] == CollideOne(pre.ship, pre.bullets, rocks[m]).rock
  {
    CollideAllSplit(ship, bs, rocks, m);
    var pre := CollideAll(ship, bs, rocks[..m]);
    assert rocks[m..][0] == rocks[m];
    assert |pre.rocks| == m;
  }

  /**
   * The ship: it either comes through untouched or ends up reset; it is
   * reset whenever a live asteroid's box overlaps the ship's box as it was
   * at the start of the pass, and it is changed only if one did.
   */
  lemma {:induction false} CollideAllShip(ship: Body, bs: seq<Body>, rocks: seq<Asteroid>)
    ensures var r := CollideAll(ship, bs, rocks);
      && (r.ship == ship || r.ship == ResetShip(ship))
      && ((exists m :: 0 <= m < |rocks| && rocks[m].body.alive && Intersects(AsteroidBounds(rocks[m]), ShipBounds(ship)))
          ==> r.ship == ResetShip(ship))
      && (r.ship != ship ==>
          exists m :: 0 <= m < |rocks| && rocks[m].body.alive && Intersects(AsteroidBounds(rocks[m]), ShipBounds(ship)))
    decreases |rocks|
  {
    if rocks != [] {
      var first := CollideOne(ship, bs, rocks[0]);
      var rest := CollideAll(first.ship, first.bullets, rocks[1..]);
      CollideAllShip(first.ship, first.bullets, rocks[1..]);
      CollideAllShip(ResetShip(ship), first.bullets, rocks[1..]);
      ResetShipIdempotent(ship);
      if first.ship == ship {
        forall m | 0 <= m < |rocks[1..]|
          ensures rocks[1..][m] == rocks[m + 1]
        {
        }
      }
      if exists m :: 0 <= m < |rocks| && rocks[m].body.alive && Intersects(AsteroidBounds(rocks[m]), ShipBounds(ship)) {
        var m :| 0 <= m < |rocks| && rocks[m].body.alive && Intersects(AsteroidBounds(rocks[m]), ShipBounds(ship));
        if first.ship == ship && m > 0 {
          assert rocks[1..][m - 1] == rocks[m];
        }
      }
    }
  }

  /**
   * The inner loop of one iteration: every bullet of the pool, in order,
   * tested against the box; reports whether any was hit.
   */
  method ShootPool(pool: seq<Body>, box: Rect) returns (bs: seq<Body>, hit: bool)
    ensures bs == ShootAll(pool, box)
    ensures hit == Struck(pool, box)
  {
    bs, hit := pool, false;
    var n := 0;
    while n < |bs|
      invariant 0 <= n <= |bs| == |pool|
      invariant forall i :: 0 <= i < n ==> bs[i] == Shoot(pool[i], box)
      invariant forall i :: n <= i < |bs| ==> bs[i] == pool[i]
      invariant hit <==> exists i :: 0 <= i < n && Inside(pool[i], box)
    {
      if bs[n].alive {
        if Contains(box, bs[n].x, bs[n].y) {
          bs := bs[n := bs[n].(alive := false)];
          hit := true;
        }
      }
      n := n + 1;
    }
  }

  /**
   * One iteration of the outer loop over imperative state: a sweep of the
   * bullet pool, then the ship test.
   */
  method CollideRound(ship: Body, bs: seq<Body>, a: Asteroid) returns (ship': Body, bs': seq<Body>, a': Asteroid)
    ensures Round(ship', bs', a') == CollideOne(ship, bs, a)
  {
    ship', bs', a' := ship, bs, a;
    if a.body.alive {
      var box := AsteroidBounds(a);
      var hit;
      bs', hit := ShootPool(bs, box);
      if hit {
        a' := a'.(body := a'.body.(alive := false));
      }
      if Intersects(box, ShipBounds(ship)) {
        a' := a'.(body := a'.body.(alive := false));
        ship' := ResetShip(ship);
      }
    }
  }

  /**
   * The collision pass as nested loops: a loop over the asteroid array,
   * each iteration a sweep of the bullet pool and a ship test.
   */
  method CheckCollisions(ship: Body, bs: seq<Body>, rocks: seq<Asteroid>)
    returns (ship': Body, bs': seq<Body>, rocks': seq<Asteroid>)
    ensures Field(ship', bs', rocks') == CollideAll(ship, bs, rocks)
    ensures |bs'| == |bs| && |rocks'| == |rocks|
    ensures forall n :: 0 <= n < |bs| ==> bs'[n] == bs[n].(alive := bs'[n].alive)
    ensures forall n :: 0 <= n < |bs| && bs'[n].alive ==> bs[n].alive
    ensures forall m :: 0 <= m < |rocks| ==> rocks'[m] == rocks[m].(body := rocks[m].body.(alive := rocks'[m].body.alive))
    ensures forall m :: 0 <= m < |rocks| && rocks'[m].body.alive ==> rocks[m].body.alive
    ensures ship' == ship || ship' == ResetShip(ship)
  {
    ship', bs', rocks' := ship, bs, rocks;
    var m := 0;
    while m < |rocks'|
      invariant 0 <= m <= |rocks'| == |rocks|
      invariant rocks'[m..] == rocks[m..]
      invariant CollideAll(ship, bs, rocks) == Prepend(rocks'[..m], CollideAll(ship', bs', rocks'[m..]))
    {
      assert rocks'[m..][0] == rocks'[m] && rocks'[m..][1..] == rocks'[m + 1..];
      var a;
      ship', bs', a := CollideRound(ship', bs', rocks'[m]);
      rocks' := rocks'[m := a];
      assert rocks'[..m + 1] == rocks'[..m] + [a];
      m := m + 1;
    }
    assert rocks'[..m] == rocks';
    CollideAllBullets(ship, bs, rocks);
    CollideAllRocks(ship, bs, rocks);
    CollideAllShip(ship, bs, rocks);
  }
}
