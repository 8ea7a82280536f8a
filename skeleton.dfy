/** The segment tree, held as an arena: segment `j` is `links[j]` (what is fixed
    when it is built) together with `poses[j]` (what every tick rewrites). A
    segment's parent is the body (`Root`) or a segment built before it, so
    parent indices are smaller than child indices and the tree is acyclic by
    construction. */
module Skeleton {
  import opened Angles
  import opened Maths

  /** What a segment hangs from: the creature's body or another segment. */
  datatype Ref = Root | Seg(id: nat)

  /** The part of a `Segment` that never changes after its constructor:
      `parent`, `children`, `size`, `defAngle`, `range`, `stiffness`. */
  datatype Link = Link(
    parent: Ref,
    children: seq<nat>,
    size: real,
    defAngle: real,
    range: real,
    stiffness: real)

  /** The part of a `Segment` that the simulation rewrites: `relAngle`,
      `absAngle`, `x`, `y`. */
  datatype Pose = Pose(relAngle: real, absAngle: real, x: real, y: real)

  /** What a child reads from its parent: position and absolute angle. */
  datatype Frame = Frame(x: real, y: real, angle: real)

  function FrameOf(p: Pose): Frame
  {
    Frame(p.x, p.y, p.absAngle)
  }

  /** Every parent segment was built before its child. */
  ghost predicate Ordered(links: seq<Link>)
  {
    forall j :: 0 <= j < |links| && links[j].parent.Seg? ==> links[j].parent.id < j
  }

  /** The arena is a tree whose `children` lists agree with the `parent`
      links: each child is listed once by its parent and by no one else, and
      `roots` lists the body's own children the same way. */
  ghost predicate WellFormed(links: seq<Link>, roots: seq<nat>)
  {
    Ordered(links)
    && (forall j :: 0 <= j < |links| ==> links[j].stiffness != 0.0)
    && (forall i, k :: 0 <= i < |links| && 0 <= k < |links[i].children| ==>
          links[i].children[k] < |links| && links[links[i].children[k]].parent == Seg(i))
    && (forall i, k, l :: 0 <= i < |links| && 0 <= k < l < |links[i].children| ==>
          links[i].children[k] != links[i].children[l])
    && (forall j :: 0 <= j < |links| && links[j].parent.Seg? ==>
          j in links[links[j].parent.id].children)
    && (forall k :: 0 <= k < |roots| ==> roots[k] < |links| && links[roots[k]].parent == Root)
    && (forall k, l :: 0 <= k < l < |roots| ==> roots[k] != roots[l])
    && (forall j :: 0 <= j < |links| && links[j].parent == Root ==> j in roots)
  }

  /** `j` is `i` or lies below it: following parents up from `j` reaches `i`. */
  ghost predicate Descends(links: seq<Link>, j: nat, i: nat)
    decreases j
  {
    j == i
    || (j < |links| && links[j].parent.Seg? && links[j].parent.id < j
        && Descends(links, links[j].parent.id, i))
  }

  /** For `j` strictly below `i`: the child of `i` whose subtree holds `j`. */
  ghost function Branch(links: seq<Link>, j: nat, i: nat): nat
    decreases j
  {
    if j < |links| && links[j].parent.Seg? && links[j].parent.id < j && links[j].parent.id != i
    then Branch(links, links[j].parent.id, i)
    else j
  }

  lemma {:induction false} DescendsAbove(links: seq<Link>, j: nat, i: nat)
    requires Descends(links, j, i)
    ensures i <= j
    decreases j
  {
    if j != i {
      DescendsAbove(links, links[j].parent.id, i);
    }
  }

  /** The branch of `j` under `i` is a child of `i`, and `j` lies in its subtree. */
  lemma {:induction false} BranchIsChild(links: seq<Link>, j: nat, i: nat)
    requires Descends(links, j, i) && j != i
    ensures Branch(links, j, i) < |links|
    ensures links[Branch(links, j, i)].parent == Seg(i)
    ensures Descends(links, j, Branch(links, j, i))
    decreases j
  {
    var p := links[j].parent.id;
    if p != i {
      BranchIsChild(links, p, i);
    }
  }

  /** Everything in the subtree of a child `c` of `i` lies below `i`, with `c` as its branch. */
  lemma {:induction false} BelowChild(links: seq<Link>, c: nat, i: nat, j: nat)
    requires Ordered(links)
    requires c < |links| && links[c].parent == Seg(i)
    requires Descends(links, j, c)
    ensures Descends(links, j, i) && j != i && Branch(links, j, i) == c
    decreases j
  {
    if j != c {
      var p := links[j].parent.id;
      BelowChild(links, c, i, p);
      DescendsAbove(links, p, c);
    }
  }

  /** Where segment `j` reads its parent's position and angle: the body's
      frame `root`, or the pose of its parent segment. */
  function ParentFrame(links: seq<Link>, poses: seq<Pose>, root: Frame, j: nat): Frame
    requires j < |links|
  {
    match links[j].parent
    case Root => root
    case Seg(p) => if p < |poses| then FrameOf(poses[p]) else root
  }

  /** The pose `updateRelative` gives a segment of length `size` whose new
      relative angle is `rel` under a parent at `pf` (lines 65-67): the
      absolute angle is the parent's turned by `rel`, and on the unit circle
      the end point lies `size` from the parent's. */
  function Placed(m: MathLib, pf: Frame, size: real, rel: real): (r: Pose)
    ensures r.relAngle == rel && r.absAngle - pf.angle == rel
    ensures Pythagorean(m) ==> Sq(r.x - pf.x) + Sq(r.y - pf.y) == Sq(size)
  {
    var abs := pf.angle + rel;
    assert Pythagorean(m) ==> Sq(m.cos(abs) * size) + Sq(m.sin(abs) * size) == Sq(size) by {
      if Pythagorean(m) {
        PolarLength(m, abs, size);
      }
    }
    Pose(rel, abs, pf.x + m.cos(abs) * size, pf.y + m.sin(abs) * size)
  }

  /** The new relative angle `updateRelative` computes (lines 49-63): `rel`
      wrapped into the window centred on the rest angle, then, when `flex`
      is set, relaxed towards the rest angle and limited to `range`. */
  function Settle(l: Link, rel: real, flex: bool): (r: real)
    requires l.stiffness != 0.0
    ensures !flex ==> r == Wrap(rel, l.defAngle)
    ensures flex && 0.0 <= l.range ==>
      l.defAngle - l.range / 2.0 <= r <= l.defAngle + l.range / 2.0
    ensures flex && l.range < 0.0 ==> r == l.defAngle + l.range / 2.0
  {
    var wrapped := Wrap(rel, l.defAngle);
    if flex then
      Clamp(l.defAngle - l.range / 2.0, l.defAngle + l.range / 2.0,
            (wrapped - l.defAngle) / l.stiffness + l.defAngle)
    else
      wrapped
  }

  /** With `stiffness >= 1` the elastic step never carries the angle further
      from rest than the wrap step left it, nor across the rest angle. */
  lemma SettleRelaxes(l: Link, rel: real)
    requires 1.0 <= l.stiffness && 0.0 <= l.range
    ensures var w := Wrap(rel, l.defAngle) - l.defAngle;
            var d := Settle(l, rel, true) - l.defAngle;
            (0.0 <= w ==> 0.0 <= d <= w) && (w <= 0.0 ==> w <= d <= 0.0)
  {
    var w := Wrap(rel, l.defAngle) - l.defAngle;
    var q := w / l.stiffness;
    assert q * l.stiffness == w;
    assert w - q == q * (l.stiffness - 1.0);
    assert 0.0 <= w ==> 0.0 <= q;
    assert w <= 0.0 ==> q <= 0.0;
    MulSigns(q, l.stiffness - 1.0);
  }

  /** A relative angle of exactly half a turn from rest is wrapped to minus
      half a turn (the window is closed below); with `range` PI and
      `stiffness` 2 the halved angle -PI/2 is then already at the limit, so
      it settles a quarter turn clockwise of rest (limiting before halving
      would give -PI/4). */
  lemma HalfTurnSettlesClockwise(parent: Ref, size: real)
    ensures Settle(Link(parent, [], size, 0.0, PI, 2.0), PI, true) == -PI / 2.0
  {
  }

  /** The pose `follow` gives a segment before it calls `updateRelative`
      (lines 90-97): its point `p` pulled back along the line from its
      parent's point to distance `size`, and its angles read off that line.
      When the segment sits on its parent's point the line is undefined (the
      source divides by zero) and the pose is kept. */
  function Pulled(m: MathLib, pf: Frame, p: Pose, size: real): Pose
  {
    var dist := Distance(m, Point(p.x, p.y), Point(pf.x, pf.y));
    if dist == 0.0 then p
    else
      var x := pf.x + (size * (p.x - pf.x)) / dist;
      var y := pf.y + (size * (p.y - pf.y)) / dist;
      var abs := m.atan2(y - pf.y, x - pf.x);
      Pose(abs - pf.angle, abs, x, y)
  }

  /** With exact square roots, `follow` pulls a segment off its parent's
      point onto the ray from that point through where the segment stood, at
      distance `size` (lines 90-95): the offset from the parent is parallel
      to the old one, points the same way, and has length `size`. */
  lemma PulledOnRay(m: MathLib, pf: Frame, p: Pose, size: real)
    requires SqrtExact(m) && 0.0 <= size
    requires Distance(m, Point(p.x, p.y), Point(pf.x, pf.y)) != 0.0
    ensures var r, dx, dy := Pulled(m, pf, p, size), p.x - pf.x, p.y - pf.y;
      && (r.x - pf.x) * dy == (r.y - pf.y) * dx
      && 0.0 <= (r.x - pf.x) * dx + (r.y - pf.y) * dy
      && Sq(r.x - pf.x) + Sq(r.y - pf.y) == Sq(size)
  {
    var dx, dy := p.x - pf.x, p.y - pf.y;
    var dist := Distance(m, Point(p.x, p.y), Point(pf.x, pf.y));
    assert 0.0 <= dist && Sq(dist) == Sq(dx) + Sq(dy);
    var r := Pulled(m, pf, p, size);
    ScaledOffset(dx, dy, dist, size, r.x - pf.x, r.y - pf.y);
  }

  /** Scaling an offset of length `dist > 0` by `size / dist` gives a parallel
      offset, pointing the same way, of length `size`. */
  lemma ScaledOffset(dx: real, dy: real, dist: real, size: real, ux: real, uy: real)
    requires 0.0 < dist && Sq(dist) == Sq(dx) + Sq(dy) && 0.0 <= size
    requires ux == (size * dx) / dist && uy == (size * dy) / dist
    ensures ux * dy == uy * dx
    ensures 0.0 <= ux * dx + uy * dy
    ensures Sq(ux) + Sq(uy) == Sq(size)
  {
    var k := size / dist;
    assert ux == k * dx && uy == k * dy;
    assert 0.0 <= k;
    assert k * dist == size;
    calc {
      Sq(k * dx) + Sq(k * dy);
      k * k * (Sq(dx) + Sq(dy));
      k * k * (dist * dist);
      (k * dist) * (k * dist);
      Sq(size);
    }
    assert (k * dx) * dy == (k * dy) * dx;
    assert (k * dx) * dx + (k * dy) * dy == k * (Sq(dx) + Sq(dy));
  }

  /** The relative angle `follow` hands to `updateRelative`. */
  function Trailed(m: MathLib, pf: Frame, p: Pose, size: real): real
  {
    Pulled(m, pf, p, size).relAngle
  }

  /** Which of the two cascades a segment is taking part in. */
  datatype Rule = Relax(flex: bool) | Trail

  /** The relative angle segment `j` ends with under `rule`, given its pose
      `before` the cascade and its parent's pose in `poses`. */
  ghost function Target(m: MathLib, links: seq<Link>, poses: seq<Pose>, root: Frame,
                        before: seq<Pose>, j: nat, rule: Rule): real
    requires j < |links| && j < |before| && links[j].stiffness != 0.0
  {
    match rule
    case Relax(flex) => Settle(links[j], before[j].relAngle, flex)
    case Trail =>
      Settle(links[j], Trailed(m, ParentFrame(links, poses, root, j), before[j], links[j].size), true)
  }

  /** Segment `j` has been brought up to date: its relative angle is its
      target and its absolute angle and position follow from its parent's
      current pose. */
  ghost predicate Done(m: MathLib, links: seq<Link>, poses: seq<Pose>, root: Frame,
                       before: seq<Pose>, j: nat, rule: Rule)
    requires j < |links| == |poses| == |before| && links[j].stiffness != 0.0
  {
    poses[j] == Placed(m, ParentFrame(links, poses, root, j), links[j].size,
                       Target(m, links, poses, root, before, j, rule))
  }

  /** Every segment has been brought up to date under `rule`. */
  ghost predicate AllDone(m: MathLib, links: seq<Link>, roots: seq<nat>, poses: seq<Pose>, root: Frame,
                          before: seq<Pose>, rule: Rule)
    requires WellFormed(links, roots)
  {
    |poses| == |links| && |before| == |links|
    && forall j :: 0 <= j < |links| ==> Done(m, links, poses, root, before, j, rule)
  }

  /** On the unit circle, once every segment has trailed, each one lies its
      own size from its parent's point: `follow` keeps every link's length
      (lines 94-98, where `updateRelative` re-places the end from the
      parent). */
  lemma TrailedSpaced(m: MathLib, links: seq<Link>, roots: seq<nat>, poses: seq<Pose>, root: Frame,
                      before: seq<Pose>)
    requires Pythagorean(m) && WellFormed(links, roots)
    requires AllDone(m, links, roots, poses, root, before, Trail)
    ensures forall j :: 0 <= j < |links| ==>
      var pf := ParentFrame(links, poses, root, j);
      Sq(poses[j].x - pf.x) + Sq(poses[j].y - pf.y) == Sq(links[j].size)
  {
    forall j | 0 <= j < |links|
      ensures var pf := ParentFrame(links, poses, root, j);
        Sq(poses[j].x - pf.x) + Sq(poses[j].y - pf.y) == Sq(links[j].size)
    {
      assert Done(m, links, poses, root, before, j, Trail);
    }
  }

  /** The segments a cascade from `i` reaches: `i` alone, or with `iter` its whole subtree. */
  ghost predicate Reached(links: seq<Link>, j: nat, i: nat, iter: bool)
  {
    if iter then Descends(links, j, i) else j == i
  }

  /** After a cascade from `i` under `rule`: every segment it reaches is done,
      and every other segment keeps its pose from `before`. */
  ghost predicate Cascaded(m: MathLib, links: seq<Link>, roots: seq<nat>, poses: seq<Pose>, root: Frame,
                           before: seq<Pose>, i: nat, iter: bool, rule: Rule)
    requires WellFormed(links, roots) && |poses| == |links| && |before| == |links|
  {
    forall j :: 0 <= j < |links| ==>
      if Reached(links, j, i, iter)
      then Done(m, links, poses, root, before, j, rule) else poses[j] == before[j]
  }

  /** Part-way through `i`'s children: `i` and the subtrees of the children in `done`. */
  ghost predicate Covered(links: seq<Link>, i: nat, done: seq<nat>, j: nat)
  {
    j == i || (Descends(links, j, i) && j != i && Branch(links, j, i) in done)
  }

  /** Once all of `i`'s children are done, the whole subtree of `i` is. */
  lemma CoveredAll(links: seq<Link>, roots: seq<nat>, i: nat, j: nat)
    requires WellFormed(links, roots) && i < |links| && j < |links|
    ensures Covered(links, i, links[i].children, j) <==> Descends(links, j, i)
  {
    if Descends(links, j, i) && j != i {
      BranchIsChild(links, j, i);
    }
  }

  /** The pre-order step of both cascades: once the subtree of the next child
      `c` of `i` is brought up to date, everything done before stays done,
      because `c`'s subtree holds neither `i`, nor the earlier subtrees, nor
      any of their parents. */
  lemma CascadeStep(m: MathLib, links: seq<Link>, roots: seq<nat>, root: Frame,
                    orig: seq<Pose>, before: seq<Pose>, after: seq<Pose>,
                    i: nat, k: nat, rule: Rule)
    requires WellFormed(links, roots) && i < |links| && k < |links[i].children|
    requires |orig| == |links| && |before| == |links| && |after| == |links|
    requires forall j :: 0 <= j < |links| ==>
      if Covered(links, i, links[i].children[..k], j)
      then Done(m, links, before, root, orig, j, rule) else before[j] == orig[j]
    requires Cascaded(m, links, roots, after, root, before, links[i].children[k], true, rule)
    ensures forall j :: 0 <= j < |links| ==>
      if Covered(links, i, links[i].children[..k + 1], j)
      then Done(m, links, after, root, orig, j, rule) else after[j] == orig[j]
  {
    var cs := links[i].children;
    var c := cs[k];
    assert cs[..k + 1] == cs[..k] + [c];
    assert c !in cs[..k];
    forall j | 0 <= j < |links|
      ensures if Covered(links, i, cs[..k + 1], j)
              then Done(m, links, after, root, orig, j, rule) else after[j] == orig[j]
    {
      if Descends(links, j, c) {
        BelowChild(links, c, i, j);
        assert !Covered(links, i, cs[..k], j);
      } else if Covered(links, i, cs[..k], j) {
        match links[j].parent
        case Root =>
        case Seg(q) =>
          if Descends(links, q, c) {
            if j == i || q == i {
              DescendsAbove(links, q, c);
            } else {
              BelowChild(links, c, i, q);
            }
          }
          assert ParentFrame(links, after, root, j) == ParentFrame(links, before, root, j);
      } else if Covered(links, i, cs[..k + 1], j) {
        BranchIsChild(links, j, i);
      }
    }
  }

  /** The arena after the `Segment` constructor (lines 31-35) adds `l` as
      segment `|links|`: it is pushed onto its parent's `children`, or onto
      the body's when it hangs from the body, and starts with none of its own. */
  function Attach(links: seq<Link>, roots: seq<nat>, l: Link): (seq<Link>, seq<nat>)
    requires l.parent.Seg? ==> l.parent.id < |links|
  {
    var id := |links|;
    match l.parent
    case Root => (links + [l.(children := [])], roots + [id])
    case Seg(p) => (links[p := links[p].(children := links[p].children + [id])] + [l.(children := [])], roots)
  }

  /** `Attach` appends the new segment without children, changes no earlier
      segment except the parent, which gains the new index at the end of its
      children, and adds the new index to the body's list exactly when the
      segment hangs from the body. */
  lemma AttachPushes(links: seq<Link>, roots: seq<nat>, l: Link)
    requires l.parent.Seg? ==> l.parent.id < |links|
    ensures var (links', roots') := Attach(links, roots, l);
      && |links'| == |links| + 1 && links'[|links|] == l.(children := [])
      && (forall j :: 0 <= j < |links| ==>
            links'[j] == if l.parent == Seg(j) then links[j].(children := links[j].children + [|links|]) else links[j])
      && roots' == if l.parent == Root then roots + [|links|] else roots
  {
  }

  /** Adding a segment keeps the arena a tree whose child lists agree with
      the parent links. */
  lemma {:induction false} AttachKeepsWellFormed(links: seq<Link>, roots: seq<nat>, l: Link)
    requires WellFormed(links, roots)
    requires l.parent.Seg? ==> l.parent.id < |links|
    requires l.stiffness != 0.0
    ensures WellFormed(Attach(links, roots, l).0, Attach(links, roots, l).1)
  {
    AttachKeepsChildren(links, roots, l);
    AttachKeepsParents(links, roots, l);
    AttachKeepsRoots(links, roots, l);
  }

  /** After `Attach`, the child lists still name children of their owner, once each. */
  lemma {:induction false} AttachKeepsChildren(links: seq<Link>, roots: seq<nat>, l: Link)
    requires WellFormed(links, roots)
    requires l.parent.Seg? ==> l.parent.id < |links|
    ensures var links' := Attach(links, roots, l).0;
      && (forall i, k :: 0 <= i < |links'| && 0 <= k < |links'[i].children| ==>
            links'[i].children[k] < |links'| && links'[links'[i].children[k]].parent == Seg(i))
      && (forall i, k, k' :: 0 <= i < |links'| && 0 <= k < k' < |links'[i].children| ==>
            links'[i].children[k] != links'[i].children[k'])
  {
    var links' := Attach(links, roots, l).0;
    var id := |links|;
    forall i, k | 0 <= i < |links'| && 0 <= k < |links'[i].children|
      ensures links'[i].children[k] < |links'| && links'[links'[i].children[k]].parent == Seg(i)
    {
      if l.parent.Seg? && i == l.parent.id && k == |links[i].children| {
        assert links'[i].children[k] == id;
      } else {
        assert links'[i].children[k] == links[i].children[k];
      }
    }
    forall i, k, k' | 0 <= i < |links'| && 0 <= k < k' < |links'[i].children|
      ensures links'[i].children[k] != links'[i].children[k']
    {
      if l.parent.Seg? && i == l.parent.id && k' == |links[i].children| {
        assert links'[i].children[k'] == id;
        assert links[i].children[k] < id;
      }
    }
  }

  /** After `Attach`, parents still come first and still list their children. */
  lemma {:induction false} AttachKeepsParents(links: seq<Link>, roots: seq<nat>, l: Link)
    requires WellFormed(links, roots)
    requires l.parent.Seg? ==> l.parent.id < |links|
    requires l.stiffness != 0.0
    ensures var links' := Attach(links, roots, l).0;
      && Ordered(links')
      && (forall j :: 0 <= j < |links'| ==> links'[j].stiffness != 0.0)
      && (forall j :: 0 <= j < |links'| && links'[j].parent.Seg? ==>
            j in links'[links'[j].parent.id].children)
  {
    var links' := Attach(links, roots, l).0;
    var id := |links|;
    forall j | 0 <= j < |links'| && links'[j].parent.Seg?
      ensures j in links'[links'[j].parent.id].children
    {
      var p := links'[j].parent.id;
      if j < id {
        assert j in links[p].children;
        if l.parent.Seg? && p == l.parent.id {
          assert links'[p].children == links[p].children + [id];
        }
      } else {
        assert links'[p].children == links[p].children + [id];
      }
    }
  }

  /** After `Attach`, the body's list still names exactly its children, once each. */
  lemma {:induction false} AttachKeepsRoots(links: seq<Link>, roots: seq<nat>, l: Link)
    requires WellFormed(links, roots)
    requires l.parent.Seg? ==> l.parent.id < |links|
    ensures var (links', roots') := Attach(links, roots, l);
      && (forall k :: 0 <= k < |roots'| ==> roots'[k] < |links'| && links'[roots'[k]].parent == Root)
      && (forall k, k' :: 0 <= k < k' < |roots'| ==> roots'[k] != roots'[k'])
      && (forall j :: 0 <= j < |links'| && links'[j].parent == Root ==> j in roots')
  {
    var (links', roots') := Attach(links, roots, l);
    var id := |links|;
    forall k | 0 <= k < |roots'|
      ensures roots'[k] < |links'| && links'[roots'[k]].parent == Root
    {
      if k < |roots| {
        assert roots'[k] == roots[k];
      }
    }
    forall k, k' | 0 <= k < k' < |roots'|
      ensures roots'[k] != roots'[k']
    {
      if k' == |roots| {
        assert roots[k] < id;
      }
    }
    forall j | 0 <= j < |links'| && links'[j].parent == Root
      ensures j in roots'
    {
      if j < id {
        assert j in roots;
        assert roots' == roots || roots' == roots + [id];
      } else {
        assert roots' == roots + [id];
      }
    }
  }

  /** The body's child under which segment `j` hangs. */
  ghost function Top(links: seq<Link>, j: nat): nat
    decreases j
  {
    if j < |links| && links[j].parent.Seg? && links[j].parent.id < j
    then Top(links, links[j].parent.id)
    else j
  }

  /** Every segment hangs under one of the body's children. */
  lemma {:induction false} TopIsRoot(links: seq<Link>, roots: seq<nat>, j: nat)
    requires WellFormed(links, roots) && j < |links|
    ensures Top(links, j) in roots && Descends(links, j, Top(links, j))
    decreases j
  {
    if links[j].parent.Seg? {
      TopIsRoot(links, roots, links[j].parent.id);
    }
  }

  /** Everything in the subtree of a child `c` of the body hangs under `c`. */
  lemma {:induction false} BelowRoot(links: seq<Link>, c: nat, j: nat)
    requires Ordered(links) && c < |links| && links[c].parent == Root
    requires Descends(links, j, c)
    ensures Top(links, j) == c
    decreases j
  {
    if j != c {
      BelowRoot(links, c, links[j].parent.id);
    }
  }

  /** The same pre-order step as `CascadeStep`, one level up: the body's
      children are taken in order, and updating the subtree of the next one
      keeps the earlier subtrees done. */
  lemma {:induction false} RootStep(m: MathLib, links: seq<Link>, roots: seq<nat>, root: Frame,
                                    orig: seq<Pose>, before: seq<Pose>, after: seq<Pose>,
                                    k: nat, rule: Rule)
    requires WellFormed(links, roots) && k < |roots|
    requires |orig| == |links| && |before| == |links| && |after| == |links|
    requires forall j :: 0 <= j < |links| ==>
      if Top(links, j) in roots[..k]
      then Done(m, links, before, root, orig, j, rule) else before[j] == orig[j]
    requires Cascaded(m, links, roots, after, root, before, roots[k], true, rule)
    ensures forall j :: 0 <= j < |links| ==>
      if Top(links, j) in roots[..k + 1]
      then Done(m, links, after, root, orig, j, rule) else after[j] == orig[j]
  {
    var c := roots[k];
    assert roots[..k + 1] == roots[..k] + [c];
    assert c !in roots[..k];
    forall j | 0 <= j < |links|
      ensures if Top(links, j) in roots[..k + 1]
              then Done(m, links, after, root, orig, j, rule) else after[j] == orig[j]
    {
      if Descends(links, j, c) {
        BelowRoot(links, c, j);
      } else if Top(links, j) in roots[..k] {
        match links[j].parent
        case Root =>
        case Seg(q) =>
          if Descends(links, q, c) {
            BelowRoot(links, c, q);
          }
          assert ParentFrame(links, after, root, j) == ParentFrame(links, before, root, j);
      } else if Top(links, j) in roots[..k + 1] {
        TopIsRoot(links, roots, j);
      }
    }
  }
}
