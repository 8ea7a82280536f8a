/** The body's per-tick motion law (`Creature.follow`, lines 282-316), as pure
    functions of the previous speeds and the target. */
module Locomotion {
  import opened Angles
  import opened Maths

  function Abs(v: real): (r: real)
    ensures 0.0 <= r && (r == v || r == -v)
  {
    if v < 0.0 then -v else v
  }

  /** `2 * Number(v > 0) - 1`: +1 for a positive value, -1 otherwise. */
  function Sign(v: real): (s: real)
    ensures v * s == Abs(v)
  {
    2.0 * (if v > 0.0 then 1.0 else 0.0) - 1.0
  }

  /** Forward acceleration gated by the legs (lines 285-292): `fAccel` scaled
      by the share of legs that are planted, or unscaled with no legs. */
  function Acceleration(fAccel: real, planted: nat, legs: nat): (a: real)
    requires planted <= legs
    ensures legs == 0 || planted == legs ==> a == fAccel
    ensures 0 < legs && planted == 0 ==> a == 0.0
    ensures 0.0 <= fAccel ==> 0.0 <= a <= fAccel
    ensures fAccel <= 0.0 ==> fAccel <= a <= 0.0
  {
    if legs > 0 then
      var share := planted as real / legs as real;
      assert 0.0 <= share <= 1.0;
      assert 0.0 <= fAccel ==> 0.0 <= fAccel * share <= fAccel by {
        MulSigns(fAccel, share);
        MulSigns(fAccel, 1.0 - share);
      }
      assert fAccel <= 0.0 ==> fAccel <= fAccel * share <= 0.0 by {
        MulSigns(-fAccel, share);
        MulSigns(-fAccel, 1.0 - share);
      }
      fAccel * share
    else
      fAccel
  }

  /** The new `fSpeed` (lines 294-295): the acceleration is added only while
      the target is further than `fThresh`, then resistance scales it. */
  function Thrust(fSpeed: real, accel: real, dist: real, fThresh: real, fRes: real): (r: real)
    ensures fThresh < dist ==> r == (fSpeed + accel) * (1.0 - fRes)
    ensures dist <= fThresh ==> r == fSpeed * (1.0 - fRes)
  {
    (fSpeed + accel * (if dist > fThresh then 1.0 else 0.0)) * (1.0 - fRes)
  }

  /** The ground speed (line 296): `fSpeed` less friction, never negative. */
  function GroundSpeed(fSpeed: real, fFric: real): (r: real)
    ensures 0.0 <= r
    ensures fFric < fSpeed ==> r == fSpeed - fFric
    ensures fSpeed <= fFric ==> r == 0.0
  {
    Max(0.0, fSpeed - fFric)
  }

  /** The turning push (lines 301-303): only when the heading error `dif` is
      above `rThresh` and the target is further than `fThresh`, `rAccel` is
      taken off in the direction of the error. */
  function Steer(rSpeed: real, dif: real, dist: real, rAccel: real, rThresh: real, fThresh: real): (r: real)
    ensures Abs(dif) <= rThresh || dist <= fThresh ==> r == rSpeed
    ensures rThresh < Abs(dif) && fThresh < dist && 0.0 < dif ==> r == rSpeed - rAccel
    ensures rThresh < Abs(dif) && fThresh < dist && dif <= 0.0 ==> r == rSpeed + rAccel
  {
    if Abs(dif) > rThresh && dist > fThresh then rSpeed - rAccel * Sign(dif) else rSpeed
  }

  /** Rotational resistance (line 305): the speed scaled by `1 - res`. With
      a resistance in [0, 1] the speed keeps its sign and does not grow; with
      none it is unchanged, with full resistance it stops. */
  function Damp(v: real, res: real): (r: real)
    ensures 0.0 <= res <= 1.0 ==> Abs(r) <= Abs(v) && (0.0 <= v ==> 0.0 <= r) && (v <= 0.0 ==> r <= 0.0)
    ensures res == 0.0 ==> r == v
    ensures res == 1.0 ==> r == 0.0
  {
    assert 0.0 <= res <= 1.0 ==> Abs(v * (1.0 - res)) <= Abs(v) by {
      if 0.0 <= res <= 1.0 {
        MulSigns(Abs(v), res);
      }
    }
    assert 0.0 <= res <= 1.0 ==> (0.0 <= v ==> 0.0 <= v * (1.0 - res)) && (v <= 0.0 ==> v * (1.0 - res) <= 0.0) by {
      MulSigns(v, 1.0 - res);
    }
    v * (1.0 - res)
  }

  /** Rotational friction (lines 306-310) on the decayed speed `v`: within one
      friction step of zero it snaps to exactly zero, otherwise it loses
      `rFric` in magnitude and keeps its sign. */
  function Spin(v: real, rFric: real): (r: real)
    ensures Abs(v) <= rFric ==> r == 0.0
    ensures rFric < Abs(v) && 0.0 < v ==> r == v - rFric
    ensures rFric < Abs(v) && v <= 0.0 ==> r == v + rFric
    ensures 0.0 <= rFric && rFric < Abs(v) ==>
      Abs(r) == Abs(v) - rFric && (0.0 < r <==> 0.0 < v) && (r < 0.0 <==> v < 0.0)
    ensures 0.0 <= rFric ==> Abs(r) <= Abs(v)
  {
    if Abs(v) > rFric then v - rFric * Sign(v) else 0.0
  }

  /** What `follow` changes of the body itself. */
  datatype Motion = Motion(x: real, y: real, heading: real, fSpeed: real, rSpeed: real, speed: real)

  /** The body's constant motion parameters (lines 252-261). */
  datatype Law = Law(fAccel: real, fFric: real, fRes: real, fThresh: real,
                     rAccel: real, rFric: real, rRes: real, rThresh: real)

  /** One tick of the body towards `target` (lines 282-316), when `planted`
      of its `legs` legs are planted: the new forward speed, ground speed,
      turning speed, heading (wrapped into [-PI, PI)) and position. */
  function Tick(m: MathLib, law: Law, s: Motion, target: Point, planted: nat, legs: nat): (r: Motion)
    requires planted <= legs
    ensures 0.0 <= r.speed && -PI <= r.heading < PI
  {
    var dist := Distance(m, Point(s.x, s.y), target);
    var angle := m.atan2(target.y - s.y, target.x - s.x);
    var fSpeed := Thrust(s.fSpeed, Acceleration(law.fAccel, planted, legs), dist, law.fThresh, law.fRes);
    var speed := GroundSpeed(fSpeed, law.fFric);
    var dif := Wrap(s.heading - angle, 0.0);
    var rSpeed := Spin(Damp(Steer(s.rSpeed, dif, dist, law.rAccel, law.rThresh, law.fThresh), law.rRes), law.rFric);
    var heading := Wrap(s.heading + rSpeed, 0.0);
    Motion(s.x + speed * m.cos(heading), s.y + speed * m.sin(heading), heading, fSpeed, rSpeed, speed)
  }

  /** A body at rest within `fThresh` of its target never starts to turn,
      whatever its heading error. */
  lemma NoSpinNearTarget(dif: real, dist: real, rAccel: real, rThresh: real, fThresh: real,
                         rRes: real, rFric: real)
    requires dist <= fThresh && 0.0 <= rFric
    ensures Spin(Damp(Steer(0.0, dif, dist, rAccel, rThresh, fThresh), rRes), rFric) == 0.0
  {
  }
}
