/** The simulation's objects (`Creature`, its segments and its `LegSystem`s)
    and their per-tick methods. A `Creature` owns the segment arena: the
    fixed `links` and the `poses` every tick rewrites, so the methods of
    `Segment` are methods of the creature that take the segment's index. */
module Simulation {
  import opened Angles
  import opened Maths
  import opened Skeleton
  import opened Kinematics
  import opened Gait
  import opened Locomotion

  class Creature {
    var x: real
    var y: real
    var absAngle: real
    var fSpeed: real
    var rSpeed: real
    var speed: real
    const fAccel: real
    const fFric: real
    const fRes: real
    const fThresh: real
    const rAccel: real
    const rFric: real
    const rRes: real
    const rThresh: real
    /** The body's own `children`: indices of the segments hanging from it. */
    var children: seq<nat>
    /** The fixed part of every segment, by index. */
    var links: seq<Link>
    /** The moving part of every segment, by index. */
    var poses: seq<Pose>
    var systems: seq<LegSystem>

    /** The arena is a tree hanging from the body, with a pose per segment. */
    ghost predicate Valid()
      reads this`links, this`children, this`poses
    {
      WellFormed(links, children) && |poses| == |links|
    }

    /** Every leg belongs to this creature, is consistent with its arena, and
        is registered once. */
    ghost predicate LegsValid()
      reads this`systems, this`links, systems`step
    {
      LegShapes(links, systems)
      && forall k :: 0 <= k < |systems| ==>
           systems[k].creature == this && systems[k].index == k
           && (systems[k].step == Planted || systems[k].step == Swinging)
    }

    /** The legs registered with a creature are distinct objects, so
        updating one leaves every other leg's gait state alone. */
    lemma LegsDistinct()
      requires LegsValid()
      ensures forall i, j :: 0 <= i < j < |systems| ==> systems[i] != systems[j]
    {
    }

    /** The arena and the legs are both consistent. */
    ghost predicate Whole()
      reads this`links, this`children, this`poses, this`systems, systems`step
    {
      Valid() && LegsValid()
    }

    /** What a segment hanging from the body reads from it. */
    function RootFrame(): Frame
      reads this`x, this`y, this`absAngle
    {
      Frame(x, y, absAngle)
    }

    /** The body's frame turned half a turn, which the segments trail from
        during `follow` (lines 318-324). */
    function Flip(f: Frame): Frame
    {
      f.(angle := f.angle + PI)
    }

    /** What `follow` changes of the body itself. */
    function State(): Motion
      reads this`x, this`y, this`absAngle, this`fSpeed, this`rSpeed, this`speed
    {
      Motion(x, y, absAngle, fSpeed, rSpeed, speed)
    }

    /** The body's motion parameters. */
    function Constants(): Law
    {
      Law(fAccel, fFric, fRes, fThresh, rAccel, rFric, rRes, rThresh)
    }

    /** What a segment reads from its parent `r`. */
    function FrameAt(r: Ref): (f: Frame)
      requires r.Seg? ==> r.id < |poses|
      reads this`x, this`y, this`absAngle, this`poses
      ensures r.Root? ==> f == RootFrame()
      ensures r.Seg? ==> f == FrameOf(poses[r.id])
    {
      match r
      case Root => RootFrame()
      case Seg(p) => FrameOf(poses[p])
    }

    /** Lines 262-278: a body at rest, with no segments and no legs. */
    constructor(x: real, y: real, angle: real, fAccel: real, fFric: real, fRes: real,
                fThresh: real, rAccel: real, rFric: real, rRes: real, rThresh: real)
      ensures Valid() && LegsValid()
      ensures this.x == x && this.y == y && absAngle == angle
      ensures this.fAccel == fAccel && this.fFric == fFric && this.fRes == fRes && this.fThresh == fThresh
      ensures this.rAccel == rAccel && this.rFric == rFric && this.rRes == rRes && this.rThresh == rThresh
      ensures fSpeed == 0.0 && rSpeed == 0.0 && speed == 0.0
      ensures children == [] && links == [] && poses == [] && systems == []
    {
      this.x := x;
      this.y := y;
      absAngle := angle;
      fSpeed := 0.0;
      this.fAccel := fAccel;
      this.fFric := fFric;
      this.fRes := fRes;
      this.fThresh := fThresh;
      rSpeed := 0.0;
      this.rAccel := rAccel;
      this.rFric := rFric;
      this.rRes := rRes;
      this.rThresh := rThresh;
      children := [];
      links := [];
      poses := [];
      systems := [];
      speed := 0.0;
    }

    /** The `Segment` constructor (lines 22-46): the new segment gets the next
        index, is pushed onto its parent's children, starts at its rest angle
        and is then brought up to date once, relaxed, without its (empty)
        subtree. */
    method AddSegment(parent: Ref, size: real, angle: real, range: real, stiffness: real, m: MathLib)
      returns (id: nat)
      requires Valid() && (parent.Seg? ==> parent.id < |links|)
      requires stiffness != 0.0
      modifies this`links, this`children, this`poses
      ensures Valid()
      ensures id == old(|links|)
      ensures (links, children) == Attach(old(links), old(children), Link(parent, [], size, angle, range, stiffness))
      ensures poses[..id] == old(poses)
      ensures poses[id] == Placed(m, FrameAt(parent), size, Settle(links[id], angle, true))
    {
      var pf := FrameAt(parent);
      id := Push(Link(parent, [], size, angle, range, stiffness), Pose(angle, pf.angle + angle, 0.0, 0.0));
      ghost var mid := poses;
      UpdateRelative(id, false, true, m);
      assert forall j :: 0 <= j < id ==> poses[j] == mid[j];
    }

    /** Lines 30-44 of the `Segment` constructor: `link` is pushed onto the
        arena with the starting pose `pose` and registered with its parent. */
    method Push(link: Link, pose: Pose) returns (id: nat)
      requires Valid() && (link.parent.Seg? ==> link.parent.id < |links|)
      requires link.stiffness != 0.0 && link.children == []
      modifies this`links, this`children, this`poses
      ensures Valid()
      ensures id == old(|links|)
      ensures (links, children) == Attach(old(links), old(children), link)
      ensures poses == old(poses) + [pose]
    {
      id := |links|;
      AttachKeepsWellFormed(links, children, link);
      match link.parent {
        case Root =>
          children := children + [id];
        case Seg(p) =>
          links := links[p := links[p].(children := links[p].children + [id])];
      }
      links := links + [link];
      poses := poses + [pose];
    }

    /** `Segment.updateRelative` (lines 48-74) on segment `i`: its relative
        angle is wrapped and, with `flex`, relaxed and limited; its absolute
        angle and end point follow from its parent; with `iter` its children
        are then done the same way, one subtree after another. Segments it
        does not reach keep their poses. */
    method UpdateRelative(i: nat, iter: bool, flex: bool, m: MathLib)
      requires Valid() && i < |links|
      modifies this`poses
      ensures Valid()
      ensures Cascaded(m, links, children, poses, RootFrame(), old(poses), i, iter, Relax(flex))
      decreases |links| - i
    {
      var l := links[i];
      var pf := FrameAt(l.parent);
      assert pf == ParentFrame(links, poses, RootFrame(), i);
      poses := poses[i := Placed(m, pf, l.size, Settle(l, poses[i].relAngle, flex))];
      assert ParentFrame(links, poses, RootFrame(), i) == pf;
      assert Done(m, links, poses, RootFrame(), old(poses), i, Relax(flex));
      if iter {
        ghost var orig := old(poses);
        var k := 0;
        while k < |l.children|
          invariant 0 <= k <= |l.children|
          invariant Valid()
          invariant forall j :: 0 <= j < |links| ==>
            if Covered(links, i, l.children[..k], j)
            then Done(m, links, poses, RootFrame(), orig, j, Relax(flex))
            else poses[j] == orig[j]
        {
          ghost var before := poses;
          UpdateRelative(l.children[k], true, flex, m);
          CascadeStep(m, links, children, RootFrame(), orig, before, poses, i, k, Relax(flex));
          k := k + 1;
        }
        forall j | 0 <= j < |links|
          ensures Covered(links, i, l.children, j) <==> Descends(links, j, i)
        {
          CoveredAll(links, children, i, j);
        }
      }
    }

    /** `Segment.follow` (lines 89-105) on segment `i`: the segment is pulled
        back to its length along the line from its parent's end point to its
        own, its relative angle is read off that line, and it is then brought
        up to date relaxed; with `iter` its children follow in turn. */
    method FollowSegment(i: nat, iter: bool, m: MathLib)
      requires Valid() && i < |links|
      modifies this`poses
      ensures Valid()
      ensures Cascaded(m, links, children, poses, RootFrame(), old(poses), i, iter, Trail)
      decreases |links| - i
    {
      var l := links[i];
      var pf := FrameAt(l.parent);
      var p := poses[i];
      poses := poses[i := Pulled(m, pf, p, l.size)];
      ghost var mid := poses;
      UpdateRelative(i, false, true, m);
      assert ParentFrame(links, poses, RootFrame(), i) == pf;
      if iter {
        ghost var orig := old(poses);
        var k := 0;
        while k < |l.children|
          invariant 0 <= k <= |l.children|
          invariant Valid()
          invariant forall j :: 0 <= j < |links| ==>
            if Covered(links, i, l.children[..k], j)
            then Done(m, links, poses, RootFrame(), orig, j, Trail)
            else poses[j] == orig[j]
        {
          ghost var before := poses;
          FollowSegment(l.children[k], true, m);
          CascadeStep(m, links, children, RootFrame(), orig, before, poses, i, k, Trail);
          k := k + 1;
        }
        forall j | 0 <= j < |links|
          ensures Covered(links, i, l.children, j) <==> Descends(links, j, i)
        {
          CoveredAll(links, children, i, j);
        }
      }
    }

    /** `Creature.follow` (lines 281-326): one tick of the body towards the
        target `(tx, ty)`. The speeds and heading change as the motion law in
        `Locomotion` says; then, with the body's angle turned half a turn,
        every segment trails its parent in pre-order (the result is
        `trailed`) and every leg takes one step, using its pair of random
        draws from `draws`. */
    method Follow(tx: real, ty: real, draws: seq<(real, real)>, m: MathLib)
      returns (ghost trailed: seq<Pose>, ghost stages: seq<seq<Pose>>, ghost relaxed: seq<seq<Pose>>)
      requires Whole() && |draws| == |systems|
      requires forall k :: 0 <= k < |draws| ==> 0.0 <= draws[k].0 < 1.0 && 0.0 <= draws[k].1 < 1.0
      modifies this`x, this`y, this`absAngle, this`fSpeed, this`rSpeed, this`speed, this`poses
      modifies systems`goalX, systems`goalY, systems`step, systems`forwardness
      ensures Whole()
      ensures State() == Tick(m, Constants(), old(State()), Point(tx, ty), old(PlantedCount(systems)), |systems|)
      ensures Dragged(m, links, children, Flip(RootFrame()), systems, draws, old(poses), old(Gaits(systems)),
                      Gaits(systems), trailed, stages, relaxed, poses)
    {
      ghost var start, was, count, gaits := State(), poses, PlantedCount(systems), Gaits(systems);
      Move(tx, ty, PlantedCount(systems), |systems|, m);
      ghost var moved := State();
      assert moved == Tick(m, Constants(), start, Point(tx, ty), count, |systems|);
      assert poses == was && Whole() && Gaits(systems) == gaits;
      trailed, stages, relaxed := Drag(draws, m);
    }

    /** Lines 318-325: with the body's angle turned half a turn, every
        segment trails its parent (the result is `trailed`) and every leg
        takes one step; the angle is then turned back. */
    method Drag(draws: seq<(real, real)>, m: MathLib)
      returns (ghost trailed: seq<Pose>, ghost stages: seq<seq<Pose>>, ghost relaxed: seq<seq<Pose>>)
      requires Whole() && |draws| == |systems|
      requires forall k :: 0 <= k < |draws| ==> 0.0 <= draws[k].0 < 1.0 && 0.0 <= draws[k].1 < 1.0
      modifies this`absAngle, this`poses, systems`goalX, systems`goalY, systems`step, systems`forwardness
      ensures Whole() && State() == old(State())
      ensures Dragged(m, links, children, Flip(RootFrame()), systems, draws, old(poses), old(Gaits(systems)),
                      Gaits(systems), trailed, stages, relaxed, poses)
    {
      ghost var before, gaits := poses, Gaits(systems);
      Turn(PI);
      ghost var back := RootFrame();
      trailed, stages, relaxed := TrailAndStep(draws, m);
      ghost var walked := Gaits(systems);
      assert RootFrame() == back && links == old(links) && children == old(children);
      assert Dragged(m, links, children, back, systems, draws, before, gaits, walked, trailed, stages, relaxed, poses);
      Turn(-PI);
      assert absAngle == old(absAngle);
      assert Flip(RootFrame()) == back && before == old(poses);
    }

    /** Lines 318 and 325: the body's angle turns by `delta`; the segments
        and the legs are untouched. */
    method Turn(delta: real)
      modifies this`absAngle
      ensures absAngle == old(absAngle) + delta
      ensures Whole() == old(Whole())
    {
      absAngle := absAngle + delta;
    }

    /** Lines 319-324, with the body's angle already turned: every segment
        trails its parent (the result is `trailed`), then every leg takes one
        step. */
    method TrailAndStep(draws: seq<(real, real)>, m: MathLib)
      returns (ghost trailed: seq<Pose>, ghost stages: seq<seq<Pose>>, ghost relaxed: seq<seq<Pose>>)
      requires Whole() && |draws| == |systems|
      requires forall k :: 0 <= k < |draws| ==> 0.0 <= draws[k].0 < 1.0 && 0.0 <= draws[k].1 < 1.0
      modifies this`poses, systems`goalX, systems`goalY, systems`step, systems`forwardness
      ensures Whole()
      ensures Dragged(m, links, children, RootFrame(), systems, draws, old(poses), old(Gaits(systems)),
                      Gaits(systems), trailed, stages, relaxed, poses)
    {
      ghost var gaits := Gaits(systems);
      TrailAll(m);
      assert Gaits(systems) == gaits;
      trailed := poses;
      stages, relaxed := StepLegs(draws, m);
    }

    /** Lines 283-316: the body's speeds, heading and position after one
        tick towards `(tx, ty)`, when `planted` of its `legs` legs are planted. */
    method Move(tx: real, ty: real, planted: nat, legs: nat, m: MathLib)
      requires planted <= legs
      modifies this`fSpeed, this`speed, this`rSpeed, this`absAngle, this`x, this`y
      ensures State() == Tick(m, Constants(), old(State()), Point(tx, ty), planted, legs)
      ensures Whole() == old(Whole())
    {
      var next := Tick(m, Constants(), State(), Point(tx, ty), planted, legs);
      x, y, absAngle, fSpeed, rSpeed, speed := next.x, next.y, next.heading, next.fSpeed, next.rSpeed, next.speed;
    }

    /** Lines 318-321: every segment hanging from the body trails it, with
        its whole subtree, in the order of `children`; afterwards every
        segment has trailed its parent. */
    method TrailAll(m: MathLib)
      requires Valid()
      modifies this`poses
      ensures Valid()
      ensures AllDone(m, links, children, poses, RootFrame(), old(poses), Trail)
    {
      var k := 0;
      while k < |children|
        invariant 0 <= k <= |children|
        invariant Valid()
        invariant forall j :: 0 <= j < |links| ==>
          if Top(links, j) in children[..k]
          then Done(m, links, poses, RootFrame(), old(poses), j, Trail)
          else poses[j] == old(poses)[j]
      {
        ghost var before := poses;
        FollowSegment(children[k], true, m);
        RootStep(m, links, children, RootFrame(), old(poses), before, poses, k, Trail);
        k := k + 1;
      }
      forall j | 0 <= j < |links|
        ensures Top(links, j) in children
      {
        TopIsRoot(links, children, j);
      }
      assert children[..|children|] == children;
    }

    /** Lines 322-324: every leg takes one step, in the order of `systems`,
        the `k`th with the draws `draws[k]`. */
    method StepLegs(draws: seq<(real, real)>, m: MathLib)
      returns (ghost stages: seq<seq<Pose>>, ghost relaxed: seq<seq<Pose>>)
      requires Whole() && |draws| == |systems|
      requires forall k :: 0 <= k < |draws| ==> 0.0 <= draws[k].0 < 1.0 && 0.0 <= draws[k].1 < 1.0
      modifies this`poses, systems`goalX, systems`goalY, systems`step, systems`forwardness
      ensures Whole()
      ensures Walked(m, links, children, RootFrame(), systems, draws, stages, relaxed,
                     old(Gaits(systems)), Gaits(systems), |systems|)
      ensures |stages| == |systems| + 1 && stages[0] == old(poses) && stages[|systems|] == poses
    {
      ghost var was, root, start := Gaits(systems), RootFrame(), poses;
      ghost var L, R, S := links, children, systems;
      stages, relaxed := [poses], [];
      var k := 0;
      while k < |systems|
        invariant Walking(m, draws, k, L, R, S, root, was, start, stages, relaxed)
      {
        stages, relaxed := StepNext(draws, m, k, L, R, S, root, was, start, stages, relaxed);
        k := k + 1;
      }
    }

    /** The loop of lines 322-324 after its first `k` legs, on the links `L`,
        roots `R` and legs `S` it does not change: the body is still valid, the
        poses have gone from `start` through `stages` to the current ones, and
        the first `k` legs have stepped from their gait states `was` to their
        current ones while the others keep theirs. */
    ghost predicate Walking(m: MathLib, draws: seq<(real, real)>, k: nat, L: seq<Link>, R: seq<nat>,
                            S: seq<LegSystem>, root: Frame, was: seq<GaitState>, start: seq<Pose>,
                            stages: seq<seq<Pose>>, relaxed: seq<seq<Pose>>)
      reads this, systems
    {
      links == L && children == R && systems == S && k <= |S| && |draws| == |S| && |was| == |S|
      && Valid() && LegsValid() && RootFrame() == root
      && |stages| == k + 1 && stages[0] == start && stages[k] == poses && |relaxed| == k
      && (forall i :: k <= i < |S| ==> Gaits(systems)[i] == was[i])
      && Walked(m, L, R, root, S, draws, stages, relaxed, was, Gaits(systems), k)
    }

    /** One pass of the loop at lines 322-324: the `k`th leg steps, and the
        walk recorded so far grows by that step. */
    method StepNext(draws: seq<(real, real)>, m: MathLib, k: nat, ghost L: seq<Link>,
                    ghost R: seq<nat>, ghost S: seq<LegSystem>, ghost root: Frame,
                    ghost was: seq<GaitState>, ghost start: seq<Pose>, ghost stages: seq<seq<Pose>>,
                    ghost relaxed: seq<seq<Pose>>)
      returns (ghost stages': seq<seq<Pose>>, ghost relaxed': seq<seq<Pose>>)
      requires k < |systems| && Walking(m, draws, k, L, R, S, root, was, start, stages, relaxed)
      requires forall k :: 0 <= k < |draws| ==> 0.0 <= draws[k].0 < 1.0 && 0.0 <= draws[k].1 < 1.0
      modifies this`poses, systems`goalX, systems`goalY, systems`step, systems`forwardness
      ensures Walking(m, draws, k + 1, L, R, S, root, was, start, stages', relaxed')
    {
      ghost var g0 := Gaits(systems);
      ghost var staged := StepLeg(systems[k], k, draws[k].0, draws[k].1, m);
      ghost var g1 := Gaits(systems);
      assert links == L && children == R && systems == S && RootFrame() == root && g0[k] == was[k];
      assert LegStepped(m, L, R, root, S[k], stages[k], staged, poses, was[k], g1[k], draws[k]);
      WalkedStep(m, L, R, root, S, draws, stages, relaxed, was, g0, k, staged, poses, g1);
      stages', relaxed' := stages + [poses], relaxed + [staged];
    }

    /** Line 323 for the `k`th leg: it runs `update` with the draws `rx` and
        `ry`, and no other leg changes. */
    method StepLeg(leg: LegSystem, ghost k: nat, rx: real, ry: real, m: MathLib) returns (ghost staged: seq<Pose>)
      requires Valid() && LegsValid() && k < |systems| && leg == systems[k]
      requires 0.0 <= rx < 1.0 && 0.0 <= ry < 1.0
      modifies this`poses, leg`goalX, leg`goalY, leg`step, leg`forwardness
      ensures Valid() && LegsValid() && |staged| == |links|
      ensures LegStepped(m, links, children, RootFrame(), leg, old(poses), staged, poses,
                         old(Gaits(systems))[k], Gaits(systems)[k], (rx, ry))
      ensures Gaits(systems) == old(Gaits(systems))[k := Gaits(systems)[k]]
    {
      ghost var gaits := Gaits(systems);
      GaitsAt(systems);
      staged := leg.Update(rx, ry, m);
      assert leg.creature == this;
      assert leg.creature.FrameAt(leg.hip) == ParentFrame(links, poses, RootFrame(), leg.nodes[0]);
      forall i | 0 <= i < |systems| && i != k
        ensures systems[i].State() == gaits[i]
      {
        assert systems[i].index == i;
      }
      GaitsUpdated(systems, k, gaits);
    }
  }

  /** A leg's chain lies in the arena `links`, ends at its foot, and its
      reach is not negative. */
  ghost predicate Shaped(links: seq<Link>, leg: LegSystem)
  {
    Chain(links, leg.nodes) && leg.nodes[|leg.nodes| - 1] == leg.end && leg.length == |leg.nodes|
    && leg.hip == links[leg.nodes[0]].parent && 0.0 <= leg.reach
  }

  ghost predicate LegShapes(links: seq<Link>, legs: seq<LegSystem>)
  {
    forall k :: 0 <= k < |legs| ==> Shaped(links, legs[k])
  }

  /** The gait states of `legs`, in order. */
  function Gaits(legs: seq<LegSystem>): (g: seq<GaitState>)
    reads legs
    ensures |g| == |legs|
    decreases |legs|, 1
  {
    if legs == [] then [] else GaitsSnoc(legs)
  }

  /** `Gaits` of a non-empty `legs`: the states of all but the last leg,
      then the last one's. */
  function GaitsSnoc(legs: seq<LegSystem>): (g: seq<GaitState>)
    requires legs != []
    reads legs
    ensures |g| == |legs|
    decreases |legs|, 0
  {
    Gaits(legs[..|legs| - 1]) + [legs[|legs| - 1].State()]
  }

  /** When only leg `k` may have changed its gait state, `Gaits` is the old
      states with leg `k`'s replaced. */
  lemma GaitsUpdated(legs: seq<LegSystem>, k: nat, was: seq<GaitState>)
    requires k < |legs| && |was| == |legs|
    requires forall i :: 0 <= i < |legs| && i != k ==> legs[i].State() == was[i]
    ensures Gaits(legs) == was[k := legs[k].State()]
  {
    GaitsAt(legs);
  }

  /** `Gaits` holds each leg's state at that leg's place. */
  lemma {:induction false} GaitsAt(legs: seq<LegSystem>)
    ensures forall k :: 0 <= k < |legs| ==> Gaits(legs)[k] == legs[k].State()
    decreases |legs|
  {
    if legs != [] {
      var init := legs[..|legs| - 1];
      GaitsAt(init);
      forall k | 0 <= k < |init|
        ensures Gaits(legs)[k] == legs[k].State()
      {
        assert init[k] == legs[k];
      }
    }
  }

  /** One `update` of `leg` (lines 189-226) with the pair of draws `draw`:
      `moveTo` its old goal took the poses from `before` through `staged` to
      `after`, and its gait state went from `was` to `now` by one step of the
      gait machine on the foot and hip as they stand in `after`. */
  ghost predicate LegStepped(m: MathLib, links: seq<Link>, roots: seq<nat>, root: Frame, leg: LegSystem,
                             before: seq<Pose>, staged: seq<Pose>, after: seq<Pose>,
                             was: GaitState, now: GaitState, draw: (real, real))
    requires WellFormed(links, roots) && Shaped(links, leg)
    requires |before| == |links| && |staged| == |links| && |after| == |links|
    requires 0.0 <= draw.0 < 1.0 && 0.0 <= draw.1 < 1.0
  {
    Moved(m, links, roots, root, before, staged, after, leg.nodes, was.goal, leg.speed)
    && now == Advance(m, was, Point(after[leg.end].x, after[leg.end].y),
                      ParentFrame(links, after, root, leg.nodes[0]),
                      leg.reach, leg.swing, leg.swingOffset, draw.0, draw.1)
  }

  /** Every pair of draws is in `[0, 1)`, as `Math.random` gives them. */
  ghost predicate Drawn(draws: seq<(real, real)>)
  {
    forall k :: 0 <= k < |draws| ==> 0.0 <= draws[k].0 < 1.0 && 0.0 <= draws[k].1 < 1.0
  }

  /** Lines 319-324 from the poses `before`, with the body's frame `root`:
      every segment trailed its parent, giving `trailed`, and then the legs
      stepped one after the other from `trailed` to `after`, their gait
      states going from `was` to `now`. */
  ghost predicate Dragged(m: MathLib, links: seq<Link>, roots: seq<nat>, root: Frame, legs: seq<LegSystem>,
                          draws: seq<(real, real)>, before: seq<Pose>, was: seq<GaitState>, now: seq<GaitState>,
                          trailed: seq<Pose>, stages: seq<seq<Pose>>, relaxed: seq<seq<Pose>>, after: seq<Pose>)
  {
    WellFormed(links, roots) && AllDone(m, links, roots, trailed, root, before, Trail)
    && Walked(m, links, roots, root, legs, draws, stages, relaxed, was, now, |legs|)
    && |stages| == |legs| + 1 && stages[0] == trailed && stages[|legs|] == after
  }

  /** The legs' loop of `follow` (lines 322-324), for its first `n` legs:
      leg `k` stepped from `stages[k]` to `stages[k + 1]` with the draws
      `draws[k]`, its gait state going from `was[k]` to `now[k]`; so each leg
      steps once, in order, on the poses the previous one left.
      `WalkedEach` spells this out leg by leg. */
  ghost predicate Walked(m: MathLib, links: seq<Link>, roots: seq<nat>, root: Frame, legs: seq<LegSystem>,
                         draws: seq<(real, real)>, stages: seq<seq<Pose>>, relaxed: seq<seq<Pose>>,
                         was: seq<GaitState>, now: seq<GaitState>, n: nat)
    decreases n, 0
  {
    n <= |legs| && n < |stages| && |stages[n]| == |links|
    && (n > 0 ==> LastStepped(m, links, roots, root, legs, draws, stages, relaxed, was, now, n - 1))
  }

  /** The walk of the first `k` legs, followed by the step of leg `k`. */
  ghost predicate LastStepped(m: MathLib, links: seq<Link>, roots: seq<nat>, root: Frame, legs: seq<LegSystem>,
                              draws: seq<(real, real)>, stages: seq<seq<Pose>>, relaxed: seq<seq<Pose>>,
                              was: seq<GaitState>, now: seq<GaitState>, k: nat)
    decreases k, 1
  {
    Walked(m, links, roots, root, legs, draws, stages, relaxed, was, now, k)
    && WellFormed(links, roots) && LegShapes(links, legs) && |draws| == |legs| && |was| == |legs| && Drawn(draws)
    && k < |legs| && k + 1 < |stages| && k < |relaxed| && k < |now|
    && |relaxed[k]| == |links| && |stages[k + 1]| == |links|
    && LegStepped(m, links, roots, root, legs[k], stages[k], relaxed[k], stages[k + 1], was[k], now[k], draws[k])
  }

  /** A walk of the first `n` legs: every one of them stepped as `LegStepped` says. */
  lemma {:induction false} WalkedEach(m: MathLib, links: seq<Link>, roots: seq<nat>, root: Frame, legs: seq<LegSystem>,
                                      draws: seq<(real, real)>, stages: seq<seq<Pose>>, relaxed: seq<seq<Pose>>,
                                      was: seq<GaitState>, now: seq<GaitState>, n: nat)
    requires Walked(m, links, roots, root, legs, draws, stages, relaxed, was, now, n)
    ensures n > 0 ==> WellFormed(links, roots) && LegShapes(links, legs) && |draws| == |legs| && |was| == |legs|
    ensures n > 0 ==> Drawn(draws)
    ensures n <= |legs| && n < |stages| && n <= |relaxed| && n <= |now|
    ensures forall k :: 0 <= k <= n ==> |stages[k]| == |links|
    ensures forall k :: 0 <= k < n ==> |relaxed[k]| == |links|
    ensures forall k :: 0 <= k < n ==>
              LegStepped(m, links, roots, root, legs[k], stages[k], relaxed[k], stages[k + 1],
                         was[k], now[k], draws[k])
    decreases n
  {
    if n > 0 {
      WalkedEach(m, links, roots, root, legs, draws, stages, relaxed, was, now, n - 1);
      forall k | 0 <= k <= n
        ensures |stages[k]| == |links|
      {
        if k < n {
          assert |stages[k]| == |links|;
        }
      }
      forall k | 0 <= k < n
        ensures |relaxed[k]| == |links|
      {
        if k < n - 1 {
          assert |relaxed[k]| == |links|;
        }
      }
    } else {
      assert |stages[0]| == |links|;
    }
  }

  /** Walks are about their first stages and gait states only: more stages
      after them, and other gait states after them, keep them. */
  lemma {:induction false} WalkedGrow(m: MathLib, links: seq<Link>, roots: seq<nat>, root: Frame, legs: seq<LegSystem>,
                                      draws: seq<(real, real)>, stages: seq<seq<Pose>>, relaxed: seq<seq<Pose>>,
                                      was: seq<GaitState>, now: seq<GaitState>, n: nat,
                                      stage: seq<Pose>, staged: seq<Pose>, now': seq<GaitState>)
    requires Walked(m, links, roots, root, legs, draws, stages, relaxed, was, now, n)
    requires n <= |now| && n <= |now'| && forall i :: 0 <= i < n ==> now'[i] == now[i]
    ensures Walked(m, links, roots, root, legs, draws, stages + [stage], relaxed + [staged], was, now', n)
    decreases n
  {
    assert (stages + [stage])[n] == stages[n];
    if n > 0 {
      WalkedGrow(m, links, roots, root, legs, draws, stages, relaxed, was, now, n - 1, stage, staged, now');
      assert (stages + [stage])[n - 1] == stages[n - 1];
      assert (relaxed + [staged])[n - 1] == relaxed[n - 1] && now'[n - 1] == now[n - 1];
    }
  }

  /** One more leg stepping extends the walk by one stage: leg `k` went from
      `stages[k]` to `after`, its gait state from `was[k]` to `now'[k]`, and
      the legs before it kept theirs. */
  lemma WalkedStep(m: MathLib, links: seq<Link>, roots: seq<nat>, root: Frame, legs: seq<LegSystem>,
                   draws: seq<(real, real)>, stages: seq<seq<Pose>>, relaxed: seq<seq<Pose>>,
                   was: seq<GaitState>, now: seq<GaitState>, k: nat,
                   staged: seq<Pose>, after: seq<Pose>, now': seq<GaitState>)
    requires Walked(m, links, roots, root, legs, draws, stages, relaxed, was, now, k)
    requires WellFormed(links, roots) && LegShapes(links, legs) && |draws| == |legs| && |was| == |legs| && Drawn(draws)
    requires k < |legs| && |stages| == k + 1 && |relaxed| == k && |now| == |now'| == |legs|
    requires now' == now[k := now'[k]]
    requires |staged| == |links| && |after| == |links|
    requires LegStepped(m, links, roots, root, legs[k], stages[k], staged, after, was[k], now'[k], draws[k])
    ensures Walked(m, links, roots, root, legs, draws, stages + [after], relaxed + [staged], was, now', k + 1)
  {
    WalkedGrow(m, links, roots, root, legs, draws, stages, relaxed, was, now, k, after, staged, now');
  }

  /** How many of `legs` are planted: the `reduce` of line 287. */
  function PlantedCount(legs: seq<LegSystem>): (n: nat)
    reads legs`step
    ensures n <= |legs|
    decreases |legs|, 1
  {
    if legs == [] then 0 else PlantedSnoc(legs)
  }

  /** `PlantedCount` of a non-empty `legs`: the count over all but the last
      leg, plus the last one if it is planted. */
  function PlantedSnoc(legs: seq<LegSystem>): (n: nat)
    requires legs != []
    reads legs`step
    ensures n <= |legs|
    decreases |legs|, 0
  {
    PlantedCount(legs[..|legs| - 1]) + (if legs[|legs| - 1].step == Planted then 1 else 0)
  }

  /** All legs are counted exactly when all are planted, and none exactly
      when none is. */
  lemma {:induction false} PlantedCountExtremes(legs: seq<LegSystem>)
    ensures PlantedCount(legs) == |legs| <==> forall k :: 0 <= k < |legs| ==> legs[k].step == Planted
    ensures PlantedCount(legs) == 0 <==> forall k :: 0 <= k < |legs| ==> legs[k].step != Planted
  {
    if legs != [] {
      var front := legs[..|legs| - 1];
      PlantedCountExtremes(front);
      assert forall k :: 0 <= k < |front| ==> front[k] == legs[k];
    }
  }

  class LegSystem {
    /** The foot: the last segment of the chain. */
    const end: nat
    const length: nat
    const creature: Creature
    const speed: real
    /** The chain, from the segment below the hip down to the foot. */
    const nodes: seq<nat>
    const hip: Ref
    const reach: real
    const swing: real
    const swingOffset: real
    /** Where the leg stands in its creature's `systems`: legs are registered once. */
    ghost const index: nat
    var goalX: real
    var goalY: real
    var step: int
    var forwardness: real

    /** What `update` rewrites of the leg. */
    function State(): GaitState
      reads this`step, this`goalX, this`goalY, this`forwardness
    {
      GaitState(step, Point(goalX, goalY), forwardness)
    }

    /** The chain is a parent-to-child chain of the creature's arena ending
        at the foot, `hip` is the first entry's parent, and `step` is one of
        the two gait states. */
    ghost predicate Valid()
      reads this`step, creature`links
    {
      Shaped(creature.links, this) && (step == Planted || step == Swinging)
    }

    /** The `LegSystem` constructor (lines 123-158): collects the chain of at
        most `length` segments ending at `end`, stopping at the body; takes
        the foot's position as goal, planted; fixes the reach and the stride
        direction from where the foot and hip are now; and registers itself
        with the creature. */
    constructor(end: nat, length: nat, speed: real, creature: Creature, m: MathLib)
      requires creature.Valid() && end < |creature.links| && 1 <= length && SqrtNonNeg(m)
      modifies creature`systems
      ensures Valid()
      ensures this.end == end && this.speed == speed && this.creature == creature
      ensures nodes[|nodes| - 1] == end && this.length == |nodes| <= length
      ensures |nodes| == length || creature.links[nodes[0]].parent == Root
      ensures hip == creature.links[nodes[0]].parent
      ensures step == Planted && forwardness == 0.0
      ensures goalX == creature.poses[end].x && goalY == creature.poses[end].y
      ensures var hf := creature.FrameAt(hip);
              var foot := Point(creature.poses[end].x, creature.poses[end].y);
              && reach == 0.9 * Distance(m, foot, Point(hf.x, hf.y))
              && swing == SwingAngle(Wrap(creature.absAngle - m.atan2(foot.y - hf.y, foot.x - hf.x), 0.0))
              && swingOffset == creature.absAngle - hf.angle
      ensures creature.systems == old(creature.systems) + [this] && index == |old(creature.systems)|
      ensures old(creature.LegsValid()) ==> creature.LegsValid()
    {
      this.end := end;
      this.creature := creature;
      this.speed := speed;
      var chain, len := CollectChain(creature.links, end, length);
      nodes := chain;
      this.length := len;
      var h := creature.links[chain[0]].parent;
      hip := h;
      var foot := creature.poses[end];
      goalX := foot.x;
      goalY := foot.y;
      step := Planted;
      forwardness := 0.0;
      var hf := creature.FrameAt(h);
      reach := 0.9 * Distance(m, Point(foot.x, foot.y), Point(hf.x, hf.y));
      var rel := creature.absAngle - m.atan2(foot.y - hf.y, foot.x - hf.x);
      rel := rel - 2.0 * PI * Turns(rel, 0.0) as real;
      swing := SwingAngle(rel);
      swingOffset := creature.absAngle - hf.angle;
      index := |creature.systems|;
      new;
      creature.systems := creature.systems + [this];
    }

    /** `moveTo` (lines 160-187): relaxes the chain's subtree, places the
        chain backwards from the target, then aims each entry at its
        placement and re-derives the off-chain subtrees below it. `staged` is
        the poses after the first step. */
    method MoveTo(tx: real, ty: real, m: MathLib) returns (ghost staged: seq<Pose>)
      requires Valid() && creature.Valid()
      modifies creature`poses
      ensures creature.Valid() && |staged| == |creature.links|
      ensures Moved(m, creature.links, creature.children, creature.RootFrame(),
                    old(creature.poses), staged, creature.poses, nodes, Point(tx, ty), speed)
    {
      var c := creature;
      ghost var links := c.links;
      ghost var roots := c.children;
      ghost var root := c.RootFrame();
      c.UpdateRelative(nodes[0], true, true, m);
      staged := c.poses;
      assert c.links == links && c.children == roots && c.RootFrame() == root && |staged| == |links|;
      assert Cascaded(m, links, roots, staged, root, old(c.poses), nodes[0], true, Relax(true));
      var foot := c.poses[end];
      var len := StrideLength(Distance(m, Point(tx, ty), Point(foot.x, foot.y)), speed);
      assert foot == staged[nodes[|nodes| - 1]];
      ghost var placed := PlaceChain(tx, ty, len, m);
      ghost var mid := c.poses;
      assert c.links == links && c.children == roots && c.RootFrame() == root && |mid| == |links|;
      assert Traced(m, links, staged, nodes, Point(tx, ty), len, placed);
      assert Staked(links, staged, mid, nodes, placed);
      ForwardStart(m, links, roots, root, staged, mid, nodes, placed);
      AimChain(m, staged, placed);
      ghost var after := c.poses;
      assert c.links == links && c.children == roots && c.RootFrame() == root && |after| == |links|;
      assert Aligned(m, links, roots, root, staged, after, nodes, placed);
      MovedFrom(m, links, roots, root, old(c.poses), staged, after, nodes, Point(tx, ty), speed, placed);
    }

    /** The backward pass of `moveTo` (lines 162-173): the foot is put `len0`
        from the target towards where it stands, and each earlier entry its
        successor's length from where the successor was put, towards where it
        stands itself. Only the chain's points move. */
    method PlaceChain(tx: real, ty: real, len0: real, m: MathLib) returns (ghost placed: seq<Point>)
      requires Ordered(creature.links) && Chain(creature.links, nodes)
      requires |creature.poses| == |creature.links|
      modifies creature`poses
      ensures |creature.poses| == |creature.links| && |placed| == |nodes|
      ensures Traced(m, creature.links, old(creature.poses), nodes, Point(tx, ty), len0, placed)
      ensures Staked(creature.links, old(creature.poses), creature.poses, nodes, placed)
    {
      var c := creature;
      ghost var links := c.links;
      ghost var staged := c.poses;
      placed := seq(|nodes|, a requires 0 <= a < |nodes| =>
                      BackwardPoint(m, links, staged, nodes, Point(tx, ty), len0, a));
      var ps := c.poses;
      var x, y, len := tx, ty, len0;
      var i := |nodes|;
      while i > 0
        invariant 0 <= i <= |nodes| && |ps| == |staged|
        invariant i == |nodes| ==> x == tx && y == ty && len == len0
        invariant i < |nodes| ==> Point(x, y) == placed[i] && len == links[nodes[i]].size
        invariant PlacedFrom(links, staged, ps, nodes, placed, i)
      {
        i := i - 1;
        var node := nodes[i];
        var p := ps[node];
        var q := Toward(m, Point(x, y), Point(p.x, p.y), len);
        assert p == staged[node] && q == placed[i];
        PlacedStep(links, staged, ps, nodes, placed, i);
        ps := ps[node := p.(x := q.x, y := q.y)];
        x, y := q.x, q.y;
        len := c.links[node].size;
      }
      PlacedAll(links, staged, ps, nodes, placed);
      c.poses := ps;
    }

    /** The forward pass of `moveTo` (lines 175-186): in chain order, each
        entry's angles are read off the line from its parent to it, and each
        of its children off the chain is brought up to date with its whole
        subtree, without relaxing. */
    method AimChain(m: MathLib, ghost staged: seq<Pose>, ghost placed: seq<Point>)
      requires Valid() && creature.Valid()
      requires |staged| == |creature.links| && |placed| == |nodes|
      requires Forward(m, creature.links, creature.children, creature.RootFrame(),
                       staged, creature.poses, nodes, placed, 0, [], [])
      modifies creature`poses
      ensures creature.Valid()
      ensures Aligned(m, creature.links, creature.children, creature.RootFrame(), staged, creature.poses, nodes, placed)
    {
      var c := creature;
      ghost var links := c.links;
      ghost var roots := c.children;
      ghost var root := c.RootFrame();
      var k := 0;
      while k < |nodes|
        invariant 0 <= k <= |nodes|
        invariant c.Valid() && c.RootFrame() == root
        invariant Forward(m, links, roots, root, staged, c.poses, nodes, placed, k, nodes[..k], [])
      {
        var node := nodes[k];
        var pf := c.FrameAt(c.links[node].parent);
        var p := c.poses[node];
        ghost var before := c.poses;
        var aim := Aimed(m, pf, Point(p.x, p.y));
        c.poses := c.poses[node := p.(absAngle := aim.absAngle, relAngle := aim.relAngle)];
        assert c.poses == before[node := Aimed(m, ParentFrame(links, before, root, node), placed[k])];
        ForwardChainStep(m, links, roots, root, staged, before, nodes, placed, k);
        var cs := c.links[node].children;
        var t := 0;
        while t < |cs|
          invariant 0 <= t <= |cs|
          invariant c.Valid() && c.RootFrame() == root
          invariant Forward(m, links, roots, root, staged, c.poses, nodes, placed, k + 1, nodes[..k], cs[..t])
        {
          ghost var before' := c.poses;
          if cs[t] !in nodes {
            c.UpdateRelative(cs[t], true, false, m);
          }
          ForwardChildStep(m, links, roots, root, staged, before', c.poses, nodes, placed, k, t);
          t := t + 1;
        }
        assert cs[..|cs|] == cs;
        ForwardChildrenDone(m, links, roots, root, staged, c.poses, nodes, placed, k);
        k := k + 1;
      }
      assert nodes[..|nodes|] == nodes;
      ForwardAll(m, links, roots, root, staged, c.poses, nodes, placed);
    }

    /** `update` (lines 189-226): `moveTo` the goal, then one step of the
        gait machine on the foot and hip as `moveTo` left them, with the two
        random draws `rx` and `ry`. */
    method Update(rx: real, ry: real, m: MathLib) returns (ghost staged: seq<Pose>)
      requires Valid() && creature.Valid()
      requires 0.0 <= rx < 1.0 && 0.0 <= ry < 1.0
      modifies this`goalX, this`goalY, this`step, this`forwardness, creature`poses
      ensures Valid() && creature.Valid() && |staged| == |creature.links|
      ensures Moved(m, creature.links, creature.children, creature.RootFrame(),
                    old(creature.poses), staged, creature.poses, nodes, old(State()).goal, speed)
      ensures State() == Advance(m, old(State()), Point(creature.poses[end].x, creature.poses[end].y),
                                 creature.FrameAt(hip), reach, swing, swingOffset, rx, ry)
    {
      staged := MoveTo(goalX, goalY, m);
      assert Moved(m, creature.links, creature.children, creature.RootFrame(),
                   old(creature.poses), staged, creature.poses, nodes, old(State()).goal, speed);
      Step(rx, ry, m);
    }

    /** The gait machine of `update` (lines 191-225) on the foot and the hip
        where they now stand; nothing of the body changes. */
    method Step(rx: real, ry: real, m: MathLib)
      requires Valid() && creature.Valid()
      requires 0.0 <= rx < 1.0 && 0.0 <= ry < 1.0
      modifies this`goalX, this`goalY, this`step, this`forwardness
      ensures Valid()
      ensures State() == Advance(m, old(State()), Point(creature.poses[end].x, creature.poses[end].y),
                                 creature.FrameAt(hip), reach, swing, swingOffset, rx, ry)
    {
      var foot := Point(creature.poses[end].x, creature.poses[end].y);
      var hf := creature.FrameAt(hip);
      if step == Planted {
        if Distance(m, foot, Point(goalX, goalY)) > 1.0 {
          step := Swinging;
          var goal := StrideGoal(m, hf, reach, swing, swingOffset, rx, ry);
          goalX, goalY := goal.x, goal.y;
        }
      } else if step == Swinging {
        var forwardness2 := Forwardness(m, hf, foot);
        var dF := forwardness - forwardness2;
        forwardness := forwardness2;
        if Sq(dF) < 1.0 {
          step := Planted;
          goalX := hf.x + (foot.x - hf.x);
          goalY := hf.y + (foot.y - hf.y);
        }
      }
    }
  }
}
