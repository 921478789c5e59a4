/**
 * The player's intents, as the key handler applies them: turn left, turn
 * right, thrust, and fire from the bullet pool.
 */
module Controls {
  import opened VectorShape
  import opened GameState

  const TURN_STEP: real := 5.0
  const THRUST_SCALE: real := 0.1
  const BULLET_SPEED: real := 2.0

  datatype Intent = TurnLeft | TurnRight | Thrust | Fire

  /**
   * Turn left by 5 degrees; an angle that drops below 0 is set to 355.
   * Only the facing changes, and a facing in [0, 360] stays there.
   */
  function RotateLeft(s: Body): (r: Body)
    ensures s.faceAngle >= TURN_STEP ==> r.faceAngle == s.faceAngle - TURN_STEP
    ensures s.faceAngle < TURN_STEP ==> r.faceAngle == 360.0 - TURN_STEP
    ensures 0.0 <= s.faceAngle <= 360.0 ==> 0.0 <= r.faceAngle <= 360.0
    ensures r == s.(faceAngle := r.faceAngle)
  {
    var turned := s.(faceAngle := s.faceAngle - TURN_STEP);
    if turned.faceAngle < 0.0 then turned.(faceAngle := 360.0 - TURN_STEP) else turned
  }

  /**
   * Turn right by 5 degrees; an angle that rises above 360 is set to 5, so
   * 360 itself is kept. Only the facing changes, and a facing in [0, 360]
   * stays there.
   */
  function RotateRight(s: Body): (r: Body)
    ensures s.faceAngle + TURN_STEP <= 360.0 ==> r.faceAngle == s.faceAngle + TURN_STEP
    ensures s.faceAngle + TURN_STEP > 360.0 ==> r.faceAngle == TURN_STEP
    ensures 0.0 <= s.faceAngle <= 360.0 ==> 0.0 <= r.faceAngle <= 360.0
    ensures r == s.(faceAngle := r.faceAngle)
  {
    var turned := s.(faceAngle := s.faceAngle + TURN_STEP);
    if turned.faceAngle > 360.0 then turned.(faceAngle := TURN_STEP) else turned
  }

  /**
   * The two turns undo each other away from the fix-up points: left then
   * right restores a facing in [5, 360], right then left one in [0, 355].
   * Turning right from 355 lands on 360, which the fix-up keeps.
   */
  lemma RotateRoundTrip(s: Body)
    ensures 5.0 <= s.faceAngle <= 360.0 ==> RotateRight(RotateLeft(s)) == s
    ensures 0.0 <= s.faceAngle <= 355.0 ==> RotateLeft(RotateRight(s)) == s
    ensures s.faceAngle == 355.0 ==> RotateRight(s).faceAngle == 360.0
  {
  }

  /**
   * Thrust: the movement heading becomes the facing minus 90, and a tenth of
   * the unit step along it is added to the velocity. Position and facing are
   * untouched.
   */
  function ApplyThrust(s: Body, am: AngleMove): (r: Body)
    ensures r.moveAngle == s.faceAngle - 90.0
    ensures r.velX - s.velX == am.dx(s.faceAngle - 90.0) * THRUST_SCALE
    ensures r.velY - s.velY == am.dy(s.faceAngle - 90.0) * THRUST_SCALE
    ensures r == s.(moveAngle := r.moveAngle, velX := r.velX, velY := r.velY)
  {
    var headed := s.(moveAngle := s.faceAngle - 90.0);
    headed.(velX := headed.velX + am.dx(headed.moveAngle) * THRUST_SCALE,
            velY := headed.velY + am.dy(headed.moveAngle) * THRUST_SCALE)
  }

  /** Thrust accumulates: two thrusts at one facing add twice the single delta. */
  lemma ThrustTwice(s: Body, am: AngleMove)
    ensures var once := ApplyThrust(s, am);
      var twice := ApplyThrust(once, am);
      && twice.velX - s.velX == 2.0 * (once.velX - s.velX)
      && twice.velY - s.velY == 2.0 * (once.velY - s.velY)
      && twice.x == s.x && twice.y == s.y && twice.faceAngle == s.faceAngle
  {
  }

  /**
   * The fire cursor advances before it is used and wraps to 0 past the last
   * slot: it is the successor modulo the pool size.
   */
  function NextCursor(c: int): (r: int)
    requires 0 <= c < BULLETS
    ensures 0 <= r < BULLETS
    ensures r == (c + 1) % BULLETS
  {
    if c + 1 > BULLETS - 1 then 0 else c + 1
  }

  /**
   * The bullet a fire puts in a slot: alive at the ship's position, heading
   * along the facing minus 90, moving with the ship's velocity plus twice the
   * unit step along that heading. The slot's shape and facing are kept.
   */
  function Launch(slot: Body, ship: Body, am: AngleMove): Body
  {
    var b := slot.(alive := true, x := ship.x, y := ship.y, moveAngle := ship.faceAngle - 90.0);
    b.(velX := ship.velX + am.dx(b.moveAngle) * BULLET_SPEED,
       velY := ship.velY + am.dy(b.moveAngle) * BULLET_SPEED)
  }

  /**
   * Fire: advance the cursor, then overwrite that slot, alive or not, with a
   * fresh bullet. No other slot, the ship and the asteroids are unchanged.
   */
  function FireBullet(w: World, am: AngleMove): (r: World)
    requires Valid(w)
    ensures Valid(r)
    ensures r.currentBullet == (w.currentBullet + 1) % BULLETS
    ensures r.ship == w.ship && r.rocks == w.rocks
    ensures forall n :: 0 <= n < BULLETS && n != r.currentBullet ==> r.bullets[n] == w.bullets[n]
    ensures var b := r.bullets[r.currentBullet];
      && b.alive
      && b.x == w.ship.x && b.y == w.ship.y
      && b.moveAngle == w.ship.faceAngle - 90.0
      && b.velX == w.ship.velX + am.dx(w.ship.faceAngle - 90.0) * BULLET_SPEED
      && b.velY == w.ship.velY + am.dy(w.ship.faceAngle - 90.0) * BULLET_SPEED
      && b.shape == w.bullets[r.currentBullet].shape
      && b.faceAngle == w.bullets[r.currentBullet].faceAngle
  {
    var c := NextCursor(w.currentBullet);
    w.(currentBullet := c, bullets := w.bullets[c := Launch(w.bullets[c], w.ship, am)])
  }

  /** A run of k fires with nothing in between. */
  function FireTimes(w: World, k: nat, am: AngleMove): (r: World)
    requires Valid(w)
    ensures Valid(r)
    ensures r.ship == w.ship && r.rocks == w.rocks
    decreases k
  {
    if k == 0 then w else FireBullet(FireTimes(w, k - 1, am), am)
  }

  /** After k fires the cursor has advanced k slots, modulo the pool size. */
  lemma {:induction false} FireTimesCursor(w: World, k: nat, am: AngleMove)
    requires Valid(w)
    ensures FireTimes(w, k, am).currentBullet == (w.currentBullet + k) % BULLETS
    decreases k
  {
    if k > 0 {
      FireTimesCursor(w, k - 1, am);
      var c := FireTimes(w, k - 1, am).currentBullet;
      assert c == (w.currentBullet + k - 1) % BULLETS;
      ModSucc(w.currentBullet + k - 1);
    }
  }

  /** The successor of a residue is the residue of the successor. */
  lemma ModSucc(i: nat)
    ensures ((i % BULLETS) + 1) % BULLETS == (i + 1) % BULLETS
  {
  }

  /**
   * From a fresh pool (cursor 0), the first fire uses slot 1 and slot 0 is
   * first used by fire number BULLETS: every earlier run leaves it as it was.
   */
  lemma {:induction false} FreshPoolSlotZero(w: World, k: nat, am: AngleMove)
    requires Valid(w) && w.currentBullet == 0
    requires k < BULLETS
    ensures FireTimes(w, k, am).bullets[0] == w.bullets[0]
    ensures k > 0 ==> FireTimes(w, k, am).currentBullet == k
    decreases k
  {
    FireTimesCursor(w, k, am);
    if k > 0 {
      FreshPoolSlotZero(w, k - 1, am);
    }
  }

  /**
   * A run of fires that ends on a multiple of the pool size ends on slot 0
   * and leaves a live bullet there; from a fresh pool that is fire number
   * BULLETS.
   */
  lemma FullLapUsesSlotZero(w: World, k: nat, am: AngleMove)
    requires Valid(w) && 0 < k
    requires (w.currentBullet + k) % BULLETS == 0
    ensures FireTimes(w, k, am).currentBullet == 0
    ensures FireTimes(w, k, am).bullets[0].alive
  {
    FireTimesCursor(w, k, am);
    var before := FireTimes(w, k - 1, am);
    assert FireTimes(w, k, am) == FireBullet(before, am);
  }

  /**
   * The key handler on one intent. Every intent keeps the state valid and
   * the angles in range; only fire touches the pool, only turns and thrust
   * touch the ship.
   */
  function KeyPressed(w: World, intent: Intent, am: AngleMove): (r: World)
    requires Valid(w)
    ensures Valid(r)
    ensures AnglesInRange(w) ==> AnglesInRange(r)
    ensures r.rocks == w.rocks
    ensures intent != Fire ==> r.bullets == w.bullets && r.currentBullet == w.currentBullet
    ensures intent == Fire ==> r.ship == w.ship
  {
    match intent
    case TurnLeft => w.(ship := RotateLeft(w.ship))
    case TurnRight => w.(ship := RotateRight(w.ship))
    case Thrust => w.(ship := ApplyThrust(w.ship, am))
    case Fire => FireBullet(w, am)
  }
}
