/** Steering and physics of one bacterium in one frame
    (PetriDish.tsx, from "Steering towards food" to the clamp). */
module Motion {
  import opened DishModel

  /** The part of a bacterium's state that steering and physics change. */
  datatype Kinematics = Kinematics(x: real, y: real, vx: real, vy: real, ax: real, ay: real)

  /** `0.2 * (reaction / 50)`: how hard a bacterium steers towards food. */
  function SteeringForce(reaction: int): real {
    0.2 * (reaction as real / 50.0)
  }

  /** Scaling a unit vector by `s` gives a vector of squared length `s * s`. */
  lemma ScaledUnitLength(u: (real, real), s: real)
    requires IsUnitVector(u)
    ensures Norm2(u.0 * s, u.1 * s) == s * s
  {
  }

  /** The new acceleration and the next unused draw: the old acceleration
      plus a push of the steering force towards `closest` (no draw), or
      plus two draws of uniform jitter in [-0.075, 0.075) when nothing is
      in sight; then damped by 0.85. With food in sight the impulse added
      to the damped old acceleration has length exactly `0.85 * force`;
      when roaming each component of it is at most `0.85 * 0.075`. */
  function Steering(b: Bacterium, closest: Option<Food>, rt: Runtime, k: nat): (r: (real, real, nat))
    ensures closest.Some? ==>
              && r.2 == k
              && Norm2(r.0 - 0.85 * b.ax, r.1 - 0.85 * b.ay) == Sq(0.85 * SteeringForce(b.stats.reaction))
    ensures closest.None? ==>
              && r.2 == k + 2
              && Abs(r.0 - 0.85 * b.ax) <= 0.85 * 0.075
              && Abs(r.1 - 0.85 * b.ay) <= 0.85 * 0.075
  {
    match closest
    case Some(f) =>
      var u := rt.direction(f.x - b.x, f.y - b.y);
      var force := SteeringForce(b.stats.reaction);
      ScaledUnitLength(u, 0.85 * force);
      assert (b.ax + u.0 * force) * 0.85 - 0.85 * b.ax == u.0 * (0.85 * force);
      assert (b.ay + u.1 * force) * 0.85 - 0.85 * b.ay == u.1 * (0.85 * force);
      ((b.ax + u.0 * force) * 0.85, (b.ay + u.1 * force) * 0.85, k)
    case None =>
      ((b.ax + (rt.random(k) - 0.5) * 0.15) * 0.85, (b.ay + (rt.random(k + 1) - 0.5) * 0.15) * 0.85, k + 2)
  }

  /** The steering code of the frame, computing `Steering`. */
  method Steer(b: Bacterium, closest: Option<Food>, rt: Runtime, k: nat)
    returns (nax: real, nay: real, k': nat)
    ensures (nax, nay, k') == Steering(b, closest, rt, k)
    ensures closest.Some? ==>
              var u := rt.direction(closest.value.x - b.x, closest.value.y - b.y);
              && nax == 0.85 * (b.ax + u.0 * SteeringForce(b.stats.reaction))
              && nay == 0.85 * (b.ay + u.1 * SteeringForce(b.stats.reaction))
    ensures closest.None? ==>
              && nax == 0.85 * (b.ax + (rt.random(k) - 0.5) * 0.15)
              && nay == 0.85 * (b.ay + (rt.random(k + 1) - 0.5) * 0.15)
  {
    nax := b.ax;
    nay := b.ay;
    if closest.Some? {
      var f := closest.value;
      var u := rt.direction(f.x - b.x, f.y - b.y);
      var force := SteeringForce(b.stats.reaction);
      nax := nax + u.0 * force;
      nay := nay + u.1 * force;
      k' := k;
      assert Steering(b, closest, rt, k).2 == k;
      assert Steering(b, closest, rt, k).0 == nax * 0.85;
      assert Steering(b, closest, rt, k).1 == nay * 0.85;
    } else {
      nax := nax + (rt.random(k) - 0.5) * 0.15;
      nay := nay + (rt.random(k + 1) - 0.5) * 0.15;
      k' := k + 2;
    }
    nax := nax * 0.85;
    nay := nay * 0.85;
  }

  /** `b.stats.speed / 30`. */
  function MaxSpeed(speed: int): real {
    speed as real / 30.0
  }

  /** `Math.sqrt(vx * vx + vy * vy) > max`, decided without the root. */
  predicate Exceeds(vx: real, vy: real, max: real) {
    max < 0.0 || Norm2(vx, vy) > max * max
  }

  /** The new velocity: the old one plus the acceleration, times the
      friction 0.99; when that is faster than `speed / 30` it is replaced
      by the cap times the unit vector `direction` gives for it. The speed
      is then at most the cap; the cap changes nothing when the speed is
      already within it, and a capped velocity has exactly the cap's
      length. */
  function Velocity(vx: real, vy: real, nax: real, nay: real, speed: int, direction: Direction): (r: (real, real))
    ensures Norm2(r.0, r.1) <= Sq(MaxSpeed(speed))
    ensures !Exceeds((vx + nax) * 0.99, (vy + nay) * 0.99, MaxSpeed(speed))
            ==> r == ((vx + nax) * 0.99, (vy + nay) * 0.99)
    ensures Exceeds((vx + nax) * 0.99, (vy + nay) * 0.99, MaxSpeed(speed))
            ==> Norm2(r.0, r.1) == Sq(MaxSpeed(speed))
  {
    var wx := (vx + nax) * 0.99;
    var wy := (vy + nay) * 0.99;
    var max := MaxSpeed(speed);
    if Exceeds(wx, wy, max) then
      var u := direction(wx, wy);
      ScaledUnitLength(u, max);
      (u.0 * max, u.1 * max)
    else (wx, wy)
  }

  /** The velocity code of the frame, computing `Velocity`. */
  method ApplyVelocity(vx: real, vy: real, nax: real, nay: real, speed: int, direction: Direction)
    returns (vx': real, vy': real)
    ensures (vx', vy') == Velocity(vx, vy, nax, nay, speed, direction)
  {
    vx' := vx + nax;
    vy' := vy + nay;
    vx' := vx' * 0.99;
    vy' := vy' * 0.99;
    var maxAllowedSpeed := MaxSpeed(speed);
    if Exceeds(vx', vy', maxAllowedSpeed) {
      var u := direction(vx', vy');
      vx' := u.0 * maxAllowedSpeed;
      vy' := u.1 * maxAllowedSpeed;
      assert Velocity(vx, vy, nax, nay, speed, direction).0 == vx';
      assert Velocity(vx, vy, nax, nay, speed, direction).1 == vy';
    } else {
      assert Velocity(vx, vy, nax, nay, speed, direction).0 == vx';
      assert Velocity(vx, vy, nax, nay, speed, direction).1 == vy';
    }
  }

  /** The tentative coordinate `v` lies outside `[0, limit]`. */
  predicate OutOfBounds(v: real, limit: real) {
    v < 0.0 || v > limit
  }

  /** Moving by the velocity, bouncing off the walls and clamping. A
      tentative position outside a wall multiplies that velocity component
      by -0.5 and negates that acceleration component; other components
      are kept. The position ends inside the dish, and a bounce never
      speeds the bacterium up. */
  function Bounced(x: real, y: real, vx: real, vy: real, ax: real, ay: real): (r: Kinematics)
    ensures InDish(r.x, r.y)
    ensures r.x == Clamp(x + vx, 0.0, DishWidth) && r.y == Clamp(y + vy, 0.0, DishHeight)
    ensures if OutOfBounds(x + vx, DishWidth) then r.vx == -0.5 * vx && r.ax == -ax
            else r.vx == vx && r.ax == ax
    ensures if OutOfBounds(y + vy, DishHeight) then r.vy == -0.5 * vy && r.ay == -ay
            else r.vy == vy && r.ay == ay
    ensures Norm2(r.vx, r.vy) <= Norm2(vx, vy)
  {
    var outX := OutOfBounds(x + vx, DishWidth);
    var outY := OutOfBounds(y + vy, DishHeight);
    Kinematics(
      Clamp(x + vx, 0.0, DishWidth),
      Clamp(y + vy, 0.0, DishHeight),
      if outX then -0.5 * vx else vx,
      if outY then -0.5 * vy else vy,
      if outX then -ax else ax,
      if outY then -ay else ay)
  }

  /** The position code of the frame, computing `Bounced`. */
  method Bounce(x: real, y: real, vx: real, vy: real, ax: real, ay: real)
    returns (nx: real, ny: real, vx': real, vy': real, ax': real, ay': real)
    ensures Kinematics(nx, ny, vx', vy', ax', ay') == Bounced(x, y, vx, vy, ax, ay)
  {
    nx := x + vx;
    ny := y + vy;
    vx', vy', ax', ay' := vx, vy, ax, ay;
    if nx < 0.0 || nx > DishWidth {
      vx' := vx' * -0.5;
      ax' := ax' * -1.0;
    }
    if ny < 0.0 || ny > DishHeight {
      vy' := vy' * -0.5;
      ay' := ay' * -1.0;
    }
    nx := Max(0.0, Min(DishWidth, nx));
    ny := Max(0.0, Min(DishHeight, ny));
  }

  /** Steering, velocity and position in that order, given the food the
      search found: the bacterium ends inside the dish no faster than its
      cap, and uses two draws exactly when no food is in sight. */
  function Moved(b: Bacterium, closest: Option<Food>, rt: Runtime, k: nat): (r: (Kinematics, nat))
    ensures InDish(r.0.x, r.0.y)
    ensures Norm2(r.0.vx, r.0.vy) <= Sq(MaxSpeed(b.stats.speed))
    ensures closest.Some? ==> r.1 == k
    ensures closest.None? ==> r.1 == k + 2
  {
    var (nax, nay, k') := Steering(b, closest, rt, k);
    var (vx, vy) := Velocity(b.vx, b.vy, nax, nay, b.stats.speed, rt.direction);
    (Bounced(b.x, b.y, vx, vy, nax, nay), k')
  }
}
