/** The leg's stride geometry and its two-state gait machine, as pure functions
    of the poses `LegSystem.update` reads after its `moveTo`. */
module Gait {
  import opened Angles
  import opened Maths
  import opened Skeleton

  /** The two values `step` takes. */
  const Planted: int := 0
  const Swinging: int := 1

  /** What `update` rewrites: `step`, the goal point and `forwardness`. */
  datatype GaitState = GaitState(step: int, goal: Point, forwardness: real)

  /** `((2 * Math.random() - 1) * reach) / 2` for a draw `r` in [0, 1). */
  function Jitter(r: real, reach: real): (j: real)
    requires 0.0 <= r < 1.0 && 0.0 <= reach
    ensures -reach / 2.0 <= j <= reach / 2.0
  {
    var u := 2.0 * r - 1.0;
    assert -reach <= u * reach <= reach by {
      MulSigns(u + 1.0, reach);
      MulSigns(u - 1.0, reach);
    }
    (u * reach) / 2.0
  }

  /** The stride direction fixed at construction (line 156) from the body's
      heading relative to the hip-to-foot direction, wrapped by line 155:
      added to `rel`, it makes a quarter turn, counter-clockwise for a
      negative `rel` and clockwise otherwise. */
  function SwingAngle(rel: real): (r: real)
    ensures r + rel == if rel < 0.0 then PI / 2.0 else -PI / 2.0
  {
    -rel + ((2.0 * (if rel < 0.0 then 1.0 else 0.0) - 1.0) * PI) / 2.0
  }

  /** At construction the stride direction `swing + hip.absAngle + swingOffset`
      is a quarter turn away from the hip-to-foot direction `footAngle`, on
      the side away from the body's heading: counter-clockwise when the
      heading is clockwise of the foot, and clockwise otherwise. The stride
      points forward while the body moves only because `follow` turns the
      facing by a half turn before the legs step. */
  lemma StrideIsQuarterTurn(heading: real, hipAngle: real, footAngle: real)
    ensures var rel := Wrap(heading - footAngle, 0.0);
            var dir := SwingAngle(rel) + hipAngle + (heading - hipAngle);
            Wrap(dir - footAngle, 0.0) == if rel < 0.0 then PI / 2.0 else -PI / 2.0
  {
    var rel := Wrap(heading - footAngle, 0.0);
    var n := Turns(heading - footAngle, 0.0);
    var q := if rel < 0.0 then PI / 2.0 else -PI / 2.0;
    var dir := SwingAngle(rel) + hipAngle + (heading - hipAngle);
    assert dir - footAngle == q + 2.0 * PI * n as real;
    WrapPeriodic(q, 0.0, n);
    WrapUnique(q, 0.0, 0);
  }

  /** The goal a planted foot jumps to when it starts a swing (lines 198-207):
      `reach` along the stride direction from the hip, plus jitter of at most
      `reach / 2` on each axis. */
  function StrideGoal(m: MathLib, hip: Frame, reach: real, swing: real, swingOffset: real,
                      rx: real, ry: real): (r: Point)
    requires 0.0 <= rx < 1.0 && 0.0 <= ry < 1.0 && 0.0 <= reach
    ensures var dir := swing + hip.angle + swingOffset;
      && hip.x + reach * m.cos(dir) - reach / 2.0 <= r.x <= hip.x + reach * m.cos(dir) + reach / 2.0
      && hip.y + reach * m.sin(dir) - reach / 2.0 <= r.y <= hip.y + reach * m.sin(dir) + reach / 2.0
  {
    var dir := swing + hip.angle + swingOffset;
    Point(hip.x + reach * m.cos(dir) + Jitter(rx, reach),
          hip.y + reach * m.sin(dir) + Jitter(ry, reach))
  }

  /** The foot's projection on the hip's facing axis (lines 210-216): on the
      unit circle it is never longer than the hip-to-foot distance. */
  function Forwardness(m: MathLib, hip: Frame, foot: Point): (r: real)
    ensures Pythagorean(m) ==> Sq(r) <= Sq(Distance(m, foot, Point(hip.x, hip.y)))
  {
    var theta := m.atan2(foot.y - hip.y, foot.x - hip.x) - hip.angle;
    var dist := Distance(m, foot, Point(hip.x, hip.y));
    assert Pythagorean(m) ==> Sq(dist * m.cos(theta)) <= Sq(dist) by {
      if Pythagorean(m) {
        var c := m.cos(theta);
        assert Sq(c) + Sq(m.sin(theta)) == 1.0;
        assert Sq(dist * c) == Sq(dist) * Sq(c);
        MulSigns(Sq(dist), 1.0 - Sq(c));
      }
    }
    dist * m.cos(theta)
  }

  /** One step of the gait machine (lines 192-225), given the foot and hip as
      `moveTo` left them and two random draws in [0, 1). A planted foot that
      has been dragged more than one unit off its goal starts a swing towards
      a new goal near the stride target; a swinging foot lands, and takes its
      position as goal, once its forward projection changes by less than one
      unit in a tick. */
  function Advance(m: MathLib, g: GaitState, foot: Point, hip: Frame,
                   reach: real, swing: real, swingOffset: real, rx: real, ry: real): (r: GaitState)
    requires 0.0 <= rx < 1.0 && 0.0 <= ry < 1.0 && 0.0 <= reach
    ensures g.step == Planted && Distance(m, foot, g.goal) <= 1.0 ==> r == g
    ensures g.step == Planted && 1.0 < Distance(m, foot, g.goal) ==>
      var dir := swing + hip.angle + swingOffset;
      && r.step == Swinging && r.forwardness == g.forwardness
      && hip.x + reach * m.cos(dir) - reach / 2.0 <= r.goal.x <= hip.x + reach * m.cos(dir) + reach / 2.0
      && hip.y + reach * m.sin(dir) - reach / 2.0 <= r.goal.y <= hip.y + reach * m.sin(dir) + reach / 2.0
    ensures g.step == Swinging ==> r.forwardness == Forwardness(m, hip, foot)
    ensures g.step == Swinging && Sq(g.forwardness - Forwardness(m, hip, foot)) < 1.0 ==>
      r.step == Planted && r.goal == foot
    ensures g.step == Swinging && 1.0 <= Sq(g.forwardness - Forwardness(m, hip, foot)) ==>
      r.step == Swinging && r.goal == g.goal
    ensures g.step != Planted && g.step != Swinging ==> r == g
    ensures (g.step == Planted || g.step == Swinging) ==> (r.step == Planted || r.step == Swinging)
  {
    if g.step == Planted then
      if Distance(m, foot, g.goal) > 1.0 then
        g.(step := Swinging, goal := StrideGoal(m, hip, reach, swing, swingOffset, rx, ry))
      else
        g
    else if g.step == Swinging then
      var f := Forwardness(m, hip, foot);
      var dF := g.forwardness - f;
      if Sq(dF) < 1.0 then
        GaitState(Planted, Point(hip.x + (foot.x - hip.x), hip.y + (foot.y - hip.y)), f)
      else
        g.(forwardness := f)
    else
      g
  }
}
