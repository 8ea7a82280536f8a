/** The leg's inverse kinematics (`LegSystem` constructor and `moveTo`): the
    chain of segments a leg owns, the backward placement pass and the forward
    pass that re-derives angles, with the facts about the tree that show the
    forward pass brings every off-chain segment under the leg up to date
    exactly once. */
module Kinematics {
  import opened Angles
  import opened Maths
  import opened Skeleton

  /** A leg's chain: consecutive entries are parent and child. */
  ghost predicate Chain(links: seq<Link>, nodes: seq<nat>)
  {
    1 <= |nodes|
    && (forall k :: 0 <= k < |nodes| ==> nodes[k] < |links|)
    && (forall k :: 0 < k < |nodes| ==> links[nodes[k]].parent == Seg(nodes[k - 1]))
  }

  lemma {:induction false} ChainIncreasingAt(links: seq<Link>, nodes: seq<nat>, a: nat, b: nat)
    requires Ordered(links) && Chain(links, nodes) && a < b < |nodes|
    ensures nodes[a] < nodes[b]
    decreases b - a
  {
    if a + 1 < b {
      ChainIncreasingAt(links, nodes, a, b - 1);
    }
  }

  /** A chain climbs strictly through the arena, so it never repeats a segment. */
  lemma ChainIncreasing(links: seq<Link>, nodes: seq<nat>)
    requires Ordered(links) && Chain(links, nodes)
    ensures forall a, b :: 0 <= a < b < |nodes| ==> nodes[a] < nodes[b]
  {
    forall a, b | 0 <= a < b < |nodes| ensures nodes[a] < nodes[b] {
      ChainIncreasingAt(links, nodes, a, b);
    }
  }

  /** No other chain entry is the same segment as entry `i`. */
  lemma ChainDistinctAt(links: seq<Link>, nodes: seq<nat>, i: nat)
    requires Ordered(links) && Chain(links, nodes) && i < |nodes|
    ensures forall a :: 0 <= a < |nodes| && a != i ==> nodes[a] != nodes[i]
  {
    forall a | 0 <= a < |nodes| && a != i
      ensures nodes[a] != nodes[i]
    {
      if a < i {
        ChainIncreasingAt(links, nodes, a, i);
      } else {
        ChainIncreasingAt(links, nodes, i, a);
      }
    }
  }

  /** Every chain entry lies below the first. */
  lemma {:induction false} ChainDescends(links: seq<Link>, nodes: seq<nat>, k: nat)
    requires Ordered(links) && Chain(links, nodes) && k < |nodes|
    ensures Descends(links, nodes[k], nodes[0])
  {
    if k > 0 {
      ChainDescends(links, nodes, k - 1);
    }
  }

  /** Collects a leg's chain as the `LegSystem` constructor does (lines
      130-139): starting at `end`, walks `parent` links, putting each segment
      in front, and stops after `length` segments or as soon as the parent is
      the body. `len` is the `length` field the constructor ends with. */
  method CollectChain(links: seq<Link>, end: nat, length: nat) returns (nodes: seq<nat>, len: nat)
    requires Ordered(links) && end < |links| && 1 <= length
    ensures Chain(links, nodes) && nodes[|nodes| - 1] == end
    ensures len == |nodes| <= length
    ensures |nodes| == length || links[nodes[0]].parent == Root
  {
    nodes := [];
    len := length;
    var node := Seg(end);
    var i := 0;
    while i < length
      invariant 0 <= i <= length && |nodes| == i
      invariant node.Seg? && node.id < |links|
      invariant i == 0 ==> node == Seg(end)
      invariant 0 < i ==> Chain(links, nodes) && nodes[i - 1] == end
      invariant 0 < i ==> links[nodes[0]].parent == node
    {
      nodes := [node.id] + nodes;
      node := links[node.id].parent;
      if node.Root? {
        len := i + 1;
        break;
      }
      i := i + 1;
    }
  }

  /** For a segment below a chain's first entry but off the chain: the
      off-chain child of a chain entry under which it hangs. */
  ghost function Sprout(links: seq<Link>, nodes: seq<nat>, j: nat): nat
    decreases j
  {
    if j < |links| && links[j].parent.Seg? && links[j].parent.id < j && links[j].parent.id !in nodes
    then Sprout(links, nodes, links[j].parent.id)
    else j
  }

  /** Every off-chain segment below the chain hangs under an off-chain child of a chain entry. */
  lemma {:induction false} SproutIsOffChainChild(links: seq<Link>, nodes: seq<nat>, j: nat)
    requires Ordered(links) && Chain(links, nodes)
    requires Descends(links, j, nodes[0]) && j !in nodes
    ensures Sprout(links, nodes, j) < |links|
    ensures Sprout(links, nodes, j) !in nodes
    ensures links[Sprout(links, nodes, j)].parent.Seg?
    ensures links[Sprout(links, nodes, j)].parent.id in nodes
    ensures Descends(links, j, Sprout(links, nodes, j))
    decreases j
  {
    var p := links[j].parent.id;
    if p !in nodes {
      SproutIsOffChainChild(links, nodes, p);
    }
  }

  /** The subtree of an off-chain child `c` of a chain entry is exactly the
      set of off-chain segments whose sprout is `c`. */
  lemma {:induction false} BelowSprout(links: seq<Link>, nodes: seq<nat>, c: nat, j: nat)
    requires Ordered(links) && Chain(links, nodes)
    requires c < |links| && c !in nodes && links[c].parent.Seg? && links[c].parent.id in nodes
    requires Descends(links, j, c)
    ensures Descends(links, j, nodes[0]) && j !in nodes && Sprout(links, nodes, j) == c
    ensures nodes[0] < j
    decreases j
  {
    if j == c {
      var k :| 0 <= k < |nodes| && nodes[k] == links[c].parent.id;
      ChainDescends(links, nodes, k);
      DescendsAbove(links, c, nodes[0]);
    } else {
      var p := links[j].parent.id;
      BelowSprout(links, nodes, c, p);
      DescendsAbove(links, p, nodes[0]);
      forall q | 0 < q < |nodes|
        ensures nodes[q] != j
      {
        assert links[nodes[q]].parent == Seg(nodes[q - 1]);
      }
    }
  }

  /** `Math.max(0, dist - speed)` (line 163): the length the backward pass
      keeps between the target and the foot. */
  function StrideLength(dist: real, speed: real): (len: real)
    ensures 0.0 <= len && dist - speed <= len
    ensures len == 0.0 || len == dist - speed
  {
    Max(0.0, dist - speed)
  }

  /** The point at distance `len` from `from` on the straight line towards `q`
      (lines 167-169). */
  function Toward(m: MathLib, from: Point, q: Point, len: real): (r: Point)
    ensures Pythagorean(m) ==> Sq(r.x - from.x) + Sq(r.y - from.y) == Sq(len)
  {
    var ang := m.atan2(q.y - from.y, q.x - from.x);
    var r := Point(from.x + len * m.cos(ang), from.y + len * m.sin(ang));
    assert Pythagorean(m) ==> Sq(r.x - from.x) + Sq(r.y - from.y) == Sq(len) by {
      if Pythagorean(m) {
        PolarLength(m, ang, len);
      }
    }
    r
  }

  /** Where the backward pass (lines 165-173) puts chain entry `k`. The last
      entry, the foot, goes `len0` from the target towards where it stood;
      each earlier entry goes its successor's link length from where the
      successor was put, towards where it stood itself. */
  ghost function BackwardPoint(m: MathLib, links: seq<Link>, staged: seq<Pose>, nodes: seq<nat>,
                               target: Point, len0: real, k: nat): Point
    requires Chain(links, nodes) && |staged| == |links| && k < |nodes|
    decreases |nodes| - k
  {
    var from := if k == |nodes| - 1 then target
                else BackwardPoint(m, links, staged, nodes, target, len0, k + 1);
    var len := if k == |nodes| - 1 then len0 else links[nodes[k + 1]].size;
    Toward(m, from, Point(staged[nodes[k]].x, staged[nodes[k]].y), len)
  }

  /** A foot that starts within `speed` of its target is put exactly on it. */
  lemma {:induction false} FootOnTargetWhenClose(m: MathLib, links: seq<Link>, staged: seq<Pose>, nodes: seq<nat>,
                              target: Point, dist: real, speed: real)
    requires Chain(links, nodes) && |staged| == |links| && dist <= speed
    ensures BackwardPoint(m, links, staged, nodes, target, StrideLength(dist, speed), |nodes| - 1) == target
  {
    var len0 := StrideLength(dist, speed);
    assert len0 == 0.0;
  }

  /** The pose the forward pass gives a chain entry placed at `p` under a
      parent at `pf` (lines 176-180): its angles are read off the placement. */
  function Aimed(m: MathLib, pf: Frame, p: Point): Pose
  {
    var abs := m.atan2(p.y - pf.y, p.x - pf.x);
    Pose(abs - pf.angle, abs, p.x, p.y)
  }

  /** Segment `j` is off the chain, below its first entry, and hangs under one
      of the chain entries in `anchors` or one of the off-chain children in
      `sprouts`. */
  ghost predicate OffChainIn(links: seq<Link>, nodes: seq<nat>, j: nat,
                             anchors: seq<nat>, sprouts: seq<nat>)
  {
    1 <= |nodes| && Descends(links, j, nodes[0]) && j !in nodes
    && var s := Sprout(links, nodes, j);
       (s < |links| && links[s].parent.Seg? && links[s].parent.id in anchors) || s in sprouts
  }

  /** The forward pass part-way: the first `k` chain entries are aimed, the
      rest still hold their placement, and of the off-chain segments below
      the chain exactly those under `anchors` or `sprouts` are up to date
      (lines 175-186). */
  ghost predicate Forward(m: MathLib, links: seq<Link>, roots: seq<nat>, root: Frame,
                          staged: seq<Pose>, poses: seq<Pose>, nodes: seq<nat>, placed: seq<Point>,
                          k: nat, anchors: seq<nat>, sprouts: seq<nat>)
    requires WellFormed(links, roots) && Chain(links, nodes)
    requires |staged| == |links| && |poses| == |links| && |placed| == |nodes|
  {
    (forall a {:trigger poses[nodes[a]]} :: 0 <= a < |nodes| ==>
       poses[nodes[a]] == if a < k then Aimed(m, ParentFrame(links, poses, root, nodes[a]), placed[a])
                          else staged[nodes[a]].(x := placed[a].x, y := placed[a].y))
    && (forall j :: 0 <= j < |links| && j !in nodes ==>
          if OffChainIn(links, nodes, j, anchors, sprouts)
          then Done(m, links, poses, root, staged, j, Relax(false))
          else poses[j] == staged[j])
  }

  /** Aiming chain entry `k` keeps everything done so far: no earlier entry
      and no off-chain segment done so far has it as parent. */
  lemma {:induction false} ForwardChainStep(m: MathLib, links: seq<Link>, roots: seq<nat>, root: Frame,
                         staged: seq<Pose>, poses: seq<Pose>, nodes: seq<nat>, placed: seq<Point>, k: nat)
    requires WellFormed(links, roots) && Chain(links, nodes) && k < |nodes|
    requires |staged| == |links| && |poses| == |links| && |placed| == |nodes|
    requires Forward(m, links, roots, root, staged, poses, nodes, placed, k, nodes[..k], [])
    ensures Forward(m, links, roots, root, staged,
                    poses[nodes[k] := Aimed(m, ParentFrame(links, poses, root, nodes[k]), placed[k])],
                    nodes, placed, k + 1, nodes[..k], [])
  {
    var n := nodes[k];
    var after := poses[n := Aimed(m, ParentFrame(links, poses, root, n), placed[k])];
    ChainIncreasing(links, nodes);
    assert n !in nodes[..k];
    forall a | 0 <= a < |nodes|
      ensures after[nodes[a]] == if a < k + 1 then Aimed(m, ParentFrame(links, after, root, nodes[a]), placed[a])
                                 else staged[nodes[a]].(x := placed[a].x, y := placed[a].y)
    {
      if a <= k {
        assert ParentFrame(links, after, root, nodes[a]) == ParentFrame(links, poses, root, nodes[a]);
      }
    }
    forall j | 0 <= j < |links| && j !in nodes
      ensures if OffChainIn(links, nodes, j, nodes[..k], [])
              then Done(m, links, after, root, staged, j, Relax(false)) else after[j] == staged[j]
    {
      if OffChainIn(links, nodes, j, nodes[..k], []) {
        assert ParentFrame(links, after, root, j) == ParentFrame(links, poses, root, j);
      }
    }
  }

  /** The subtree of an off-chain child `c` of a chain entry holds no chain
      entry and no chain entry's parent. */
  lemma {:induction false} SproutAvoidsChain(links: seq<Link>, nodes: seq<nat>, c: nat, a: nat)
    requires Ordered(links) && Chain(links, nodes) && a < |nodes|
    requires c < |links| && c !in nodes && links[c].parent.Seg? && links[c].parent.id in nodes
    ensures !Descends(links, nodes[a], c)
    ensures links[nodes[a]].parent.Seg? ==> !Descends(links, links[nodes[a]].parent.id, c)
  {
    if Descends(links, nodes[a], c) {
      BelowSprout(links, nodes, c, nodes[a]);
    }
    if links[nodes[a]].parent.Seg? {
      var q := links[nodes[a]].parent.id;
      if a == 0 {
        if Descends(links, q, c) {
          BelowSprout(links, nodes, c, q);
        }
      } else {
        assert q == nodes[a - 1];
        if Descends(links, q, c) {
          BelowSprout(links, nodes, c, q);
        }
      }
    }
  }

  /** An off-chain segment below the chain but outside the subtree of the
      off-chain child `c` hangs under a different off-chain child, and its
      parent is outside that subtree too. */
  lemma {:induction false} SproutAvoidsOther(links: seq<Link>, nodes: seq<nat>, c: nat, j: nat)
    requires Ordered(links) && Chain(links, nodes)
    requires c < |links| && c !in nodes && links[c].parent.Seg? && links[c].parent.id in nodes
    requires j < |links| && j !in nodes && Descends(links, j, nodes[0]) && !Descends(links, j, c)
    ensures Sprout(links, nodes, j) != c
    ensures links[j].parent.Seg? && !Descends(links, links[j].parent.id, c)
  {
    SproutIsOffChainChild(links, nodes, j);
    var q := links[j].parent.id;
    if Descends(links, q, c) {
      BelowSprout(links, nodes, c, q);
    }
  }

  /** Updating the subtree of the next child `cs[t]` of chain entry `k` (the
      inner loop, lines 181-185) keeps everything done so far; a child on the
      chain is skipped and changes nothing. */
  lemma {:induction false} ForwardChildStep(m: MathLib, links: seq<Link>, roots: seq<nat>, root: Frame,
                         staged: seq<Pose>, before: seq<Pose>, after: seq<Pose>,
                         nodes: seq<nat>, placed: seq<Point>, k: nat, t: nat)
    requires WellFormed(links, roots) && Chain(links, nodes) && k < |nodes|
    requires t < |links[nodes[k]].children|
    requires |staged| == |links| && |before| == |links| && |after| == |links| && |placed| == |nodes|
    requires Forward(m, links, roots, root, staged, before, nodes, placed, k + 1, nodes[..k],
                     links[nodes[k]].children[..t])
    requires links[nodes[k]].children[t] in nodes ==> after == before
    requires links[nodes[k]].children[t] !in nodes ==>
      Cascaded(m, links, roots, after, root, before, links[nodes[k]].children[t], true, Relax(false))
    ensures Forward(m, links, roots, root, staged, after, nodes, placed, k + 1, nodes[..k],
                    links[nodes[k]].children[..t + 1])
  {
    var cs := links[nodes[k]].children;
    var c := cs[t];
    assert cs[..t + 1] == cs[..t] + [c];
    if c in nodes {
      forall j | 0 <= j < |links| && j !in nodes
        ensures OffChainIn(links, nodes, j, nodes[..k], cs[..t + 1])
                == OffChainIn(links, nodes, j, nodes[..k], cs[..t])
      {
        if Descends(links, j, nodes[0]) {
          SproutIsOffChainChild(links, nodes, j);
        }
      }
    } else {
      ForwardSproutStep(m, links, roots, root, staged, before, after, nodes, placed, k, cs[..t], c);
    }
  }

  /** The case of `ForwardChildStep` where the child `c` is off the chain. */
  lemma {:induction false} ForwardSproutStep(m: MathLib, links: seq<Link>, roots: seq<nat>, root: Frame,
                         staged: seq<Pose>, before: seq<Pose>, after: seq<Pose>,
                         nodes: seq<nat>, placed: seq<Point>, k: nat, sprouts: seq<nat>, c: nat)
    requires WellFormed(links, roots) && Chain(links, nodes) && k < |nodes|
    requires c < |links| && c !in nodes && c !in sprouts && links[c].parent == Seg(nodes[k])
    requires |staged| == |links| && |before| == |links| && |after| == |links| && |placed| == |nodes|
    requires Forward(m, links, roots, root, staged, before, nodes, placed, k + 1, nodes[..k], sprouts)
    requires forall j :: 0 <= j < |links| ==>
      if Descends(links, j, c) then Done(m, links, after, root, before, j, Relax(false)) else after[j] == before[j]
    ensures Forward(m, links, roots, root, staged, after, nodes, placed, k + 1, nodes[..k], sprouts + [c])
  {
    ChainIncreasing(links, nodes);
    assert nodes[k] !in nodes[..k];
    forall a | 0 <= a < |nodes|
      ensures after[nodes[a]] == if a < k + 1 then Aimed(m, ParentFrame(links, after, root, nodes[a]), placed[a])
                                 else staged[nodes[a]].(x := placed[a].x, y := placed[a].y)
    {
      SproutAvoidsChain(links, nodes, c, a);
      assert ParentFrame(links, after, root, nodes[a]) == ParentFrame(links, before, root, nodes[a]);
    }
    forall j | 0 <= j < |links| && j !in nodes
      ensures if OffChainIn(links, nodes, j, nodes[..k], sprouts + [c])
              then Done(m, links, after, root, staged, j, Relax(false)) else after[j] == staged[j]
    {
      if Descends(links, j, c) {
        BelowSprout(links, nodes, c, j);
        assert !OffChainIn(links, nodes, j, nodes[..k], sprouts);
      } else if Descends(links, j, nodes[0]) {
        SproutAvoidsOther(links, nodes, c, j);
        assert ParentFrame(links, after, root, j) == ParentFrame(links, before, root, j);
      }
    }
  }

  /** Once all children of chain entry `k` are done, everything under it is. */
  lemma {:induction false} ForwardChildrenDone(m: MathLib, links: seq<Link>, roots: seq<nat>, root: Frame,
                            staged: seq<Pose>, poses: seq<Pose>, nodes: seq<nat>, placed: seq<Point>, k: nat)
    requires WellFormed(links, roots) && Chain(links, nodes) && k < |nodes|
    requires |staged| == |links| && |poses| == |links| && |placed| == |nodes|
    requires Forward(m, links, roots, root, staged, poses, nodes, placed, k + 1, nodes[..k],
                     links[nodes[k]].children)
    ensures Forward(m, links, roots, root, staged, poses, nodes, placed, k + 1, nodes[..k + 1], [])
  {
    var cs := links[nodes[k]].children;
    assert nodes[..k + 1] == nodes[..k] + [nodes[k]];
    forall j | 0 <= j < |links| && j !in nodes
      ensures OffChainIn(links, nodes, j, nodes[..k + 1], [])
              == OffChainIn(links, nodes, j, nodes[..k], cs)
    {
      if Descends(links, j, nodes[0]) {
        SproutIsOffChainChild(links, nodes, j);
      }
    }
  }

  /** The forward pass's result: every chain entry aimed at its placement
      from its parent, every off-chain segment below the chain re-derived from
      its staged angle without relaxing, and every other segment as staged. */
  ghost predicate Aligned(m: MathLib, links: seq<Link>, roots: seq<nat>, root: Frame,
                          staged: seq<Pose>, poses: seq<Pose>, nodes: seq<nat>, placed: seq<Point>)
    requires WellFormed(links, roots) && Chain(links, nodes)
    requires |staged| == |links| && |poses| == |links| && |placed| == |nodes|
  {
    (forall a {:trigger poses[nodes[a]]} :: 0 <= a < |nodes| ==>
       poses[nodes[a]] == Aimed(m, ParentFrame(links, poses, root, nodes[a]), placed[a]))
    && (forall j :: 0 <= j < |links| && j !in nodes ==>
          if Descends(links, j, nodes[0])
          then Done(m, links, poses, root, staged, j, Relax(false)) else poses[j] == staged[j])
  }

  /** At the end of the forward pass every off-chain segment below the chain
      is up to date and nothing else off the chain has changed. */
  lemma {:induction false} ForwardAll(m: MathLib, links: seq<Link>, roots: seq<nat>, root: Frame,
                   staged: seq<Pose>, poses: seq<Pose>, nodes: seq<nat>, placed: seq<Point>)
    requires WellFormed(links, roots) && Chain(links, nodes)
    requires |staged| == |links| && |poses| == |links| && |placed| == |nodes|
    requires Forward(m, links, roots, root, staged, poses, nodes, placed, |nodes|, nodes, [])
    ensures Aligned(m, links, roots, root, staged, poses, nodes, placed)
  {
    forall j | 0 <= j < |links| && j !in nodes
      ensures OffChainIn(links, nodes, j, nodes, []) == Descends(links, j, nodes[0])
    {
      if Descends(links, j, nodes[0]) {
        SproutIsOffChainChild(links, nodes, j);
      }
    }
  }

  /** The backward pass's placements: entry `a` of the chain goes to
      `BackwardPoint(.., a)`. */
  ghost predicate Traced(m: MathLib, links: seq<Link>, staged: seq<Pose>, nodes: seq<nat>,
                         target: Point, len0: real, placed: seq<Point>)
    requires Chain(links, nodes) && |staged| == |links| && |placed| == |nodes|
  {
    forall a {:trigger placed[a]} :: 0 <= a < |nodes| ==> placed[a] == BackwardPoint(m, links, staged, nodes, target, len0, a)
  }

  /** The backward pass's result: each chain entry stands on its placement
      with its staged angles, and every other segment is as staged. */
  ghost predicate Staked(links: seq<Link>, staged: seq<Pose>, poses: seq<Pose>, nodes: seq<nat>, placed: seq<Point>)
    requires Chain(links, nodes) && |staged| == |links| && |poses| == |links| && |placed| == |nodes|
  {
    (forall a {:trigger poses[nodes[a]]} :: 0 <= a < |nodes| ==>
       poses[nodes[a]] == staged[nodes[a]].(x := placed[a].x, y := placed[a].y))
    && (forall j :: 0 <= j < |links| && j !in nodes ==> poses[j] == staged[j])
  }

  /** Part-way through the backward pass: the entries from `i` on stand on
      their placements; the earlier entries and every segment off the chain
      are as staged. */
  ghost predicate PlacedFrom(links: seq<Link>, staged: seq<Pose>, poses: seq<Pose>, nodes: seq<nat>,
                             placed: seq<Point>, i: nat)
    requires Chain(links, nodes) && |staged| == |links| && |poses| == |links| && |placed| == |nodes|
  {
    (forall a {:trigger poses[nodes[a]]} :: 0 <= a < |nodes| ==>
       poses[nodes[a]] == if a < i then staged[nodes[a]]
                          else staged[nodes[a]].(x := placed[a].x, y := placed[a].y))
    && (forall j :: 0 <= j < |links| && j !in nodes ==> poses[j] == staged[j])
  }

  /** One step of the backward pass: placing entry `i` touches no other
      entry, because the chain's entries are distinct. */
  lemma {:induction false} PlacedStep(links: seq<Link>, staged: seq<Pose>, poses: seq<Pose>, nodes: seq<nat>,
                                      placed: seq<Point>, i: nat)
    requires Ordered(links) && Chain(links, nodes) && i < |nodes|
    requires |staged| == |links| && |poses| == |links| && |placed| == |nodes|
    requires PlacedFrom(links, staged, poses, nodes, placed, i + 1)
    ensures PlacedFrom(links, staged, poses[nodes[i] := staged[nodes[i]].(x := placed[i].x, y := placed[i].y)],
                       nodes, placed, i)
  {
    ChainDistinctAt(links, nodes, i);
  }

  /** Once every entry is placed, the backward pass is complete. */
  lemma {:induction false} PlacedAll(links: seq<Link>, staged: seq<Pose>, poses: seq<Pose>, nodes: seq<nat>,
                                     placed: seq<Point>)
    requires Chain(links, nodes) && |staged| == |links| && |poses| == |links| && |placed| == |nodes|
    requires PlacedFrom(links, staged, poses, nodes, placed, 0)
    ensures Staked(links, staged, poses, nodes, placed)
  {
  }

  /** The backward pass leaves the forward pass ready to start: the chain's
      points placed, nothing aimed and nothing off the chain touched. */
  lemma {:induction false} ForwardStart(m: MathLib, links: seq<Link>, roots: seq<nat>, root: Frame,
                                        staged: seq<Pose>, poses: seq<Pose>, nodes: seq<nat>, placed: seq<Point>)
    requires WellFormed(links, roots) && Chain(links, nodes)
    requires |staged| == |links| && |poses| == |links| && |placed| == |nodes|
    requires Staked(links, staged, poses, nodes, placed)
    ensures Forward(m, links, roots, root, staged, poses, nodes, placed, 0, [], [])
  {
  }

  /** What `moveTo` (lines 160-187) does to the poses, from `before` to
      `after` through `staged`, the poses after its first step: the subtree of
      the chain's first entry is relaxed (line 161); the chain is placed by
      the backward pass towards `target` and each entry aimed at its
      placement from its parent; every off-chain segment below the chain is
      re-derived from its staged angle without relaxing; nothing else moves. */
  ghost predicate Moved(m: MathLib, links: seq<Link>, roots: seq<nat>, root: Frame,
                        before: seq<Pose>, staged: seq<Pose>, after: seq<Pose>,
                        nodes: seq<nat>, target: Point, speed: real)
    requires WellFormed(links, roots) && Chain(links, nodes)
    requires |before| == |links| && |staged| == |links| && |after| == |links|
  {
    var foot := staged[nodes[|nodes| - 1]];
    var len0 := StrideLength(Distance(m, target, Point(foot.x, foot.y)), speed);
    (forall j :: 0 <= j < |links| ==>
       if Descends(links, j, nodes[0])
       then Done(m, links, staged, root, before, j, Relax(true)) else staged[j] == before[j])
    && (forall a {:trigger after[nodes[a]]} :: 0 <= a < |nodes| ==>
          after[nodes[a]] == Aimed(m, ParentFrame(links, after, root, nodes[a]),
                                   BackwardPoint(m, links, staged, nodes, target, len0, a)))
    && (forall j :: 0 <= j < |links| && j !in nodes ==>
          if Descends(links, j, nodes[0])
          then Done(m, links, after, root, staged, j, Relax(false)) else after[j] == before[j])
  }

  /** On the unit circle the backward pass leaves the foot `len0` from the
      target and each earlier entry its successor's link length from where
      the successor was put (lines 165-173). */
  lemma BackwardSpacing(m: MathLib, links: seq<Link>, staged: seq<Pose>, nodes: seq<nat>,
                        target: Point, len0: real, k: nat)
    requires Pythagorean(m) && Chain(links, nodes) && |staged| == |links| && k < |nodes|
    ensures var p := BackwardPoint(m, links, staged, nodes, target, len0, k);
      if k == |nodes| - 1 then Sq(p.x - target.x) + Sq(p.y - target.y) == Sq(len0)
      else var q := BackwardPoint(m, links, staged, nodes, target, len0, k + 1);
        Sq(p.x - q.x) + Sq(p.y - q.y) == Sq(links[nodes[k + 1]].size)
  {
  }

  /** Chain entries `a` and `a + 1` stand the link length of `a + 1` apart. */
  ghost predicate LinkSpaced(links: seq<Link>, poses: seq<Pose>, nodes: seq<nat>, a: nat)
  {
    a + 1 < |nodes| && nodes[a + 1] < |links| && nodes[a] < |poses| && nodes[a + 1] < |poses|
    && Sq(poses[nodes[a]].x - poses[nodes[a + 1]].x) + Sq(poses[nodes[a]].y - poses[nodes[a + 1]].y)
       == Sq(links[nodes[a + 1]].size)
  }

  /** A chain whose entries stand where the backward pass put them hangs
      together on the unit circle: the foot `len0` from the target, each
      entry its successor's link length from that successor. */
  lemma PlacedChainSpaced(m: MathLib, links: seq<Link>, root: Frame, staged: seq<Pose>, after: seq<Pose>,
                          nodes: seq<nat>, target: Point, len0: real)
    requires Pythagorean(m) && Chain(links, nodes) && |staged| == |links| && |after| == |links|
    requires forall a {:trigger after[nodes[a]]} :: 0 <= a < |nodes| ==>
               after[nodes[a]] == Aimed(m, ParentFrame(links, after, root, nodes[a]),
                                        BackwardPoint(m, links, staged, nodes, target, len0, a))
    ensures var n := |nodes| - 1;
      Sq(after[nodes[n]].x - target.x) + Sq(after[nodes[n]].y - target.y) == Sq(len0)
    ensures forall a :: 0 <= a < |nodes| - 1 ==> LinkSpaced(links, after, nodes, a)
  {
    BackwardSpacing(m, links, staged, nodes, target, len0, |nodes| - 1);
    forall a | 0 <= a < |nodes| - 1
      ensures LinkSpaced(links, after, nodes, a)
    {
      PlacedSpacedAt(m, links, staged, after, nodes, target, len0, a);
    }
  }

  /** One link of `PlacedChainSpaced`. */
  lemma PlacedSpacedAt(m: MathLib, links: seq<Link>, staged: seq<Pose>, after: seq<Pose>,
                       nodes: seq<nat>, target: Point, len0: real, a: nat)
    requires Pythagorean(m) && Chain(links, nodes) && |staged| == |links| && |after| == |links|
    requires a + 1 < |nodes|
    requires after[nodes[a]].x == BackwardPoint(m, links, staged, nodes, target, len0, a).x
    requires after[nodes[a]].y == BackwardPoint(m, links, staged, nodes, target, len0, a).y
    requires after[nodes[a + 1]].x == BackwardPoint(m, links, staged, nodes, target, len0, a + 1).x
    requires after[nodes[a + 1]].y == BackwardPoint(m, links, staged, nodes, target, len0, a + 1).y
    ensures LinkSpaced(links, after, nodes, a)
  {
    BackwardSpacing(m, links, staged, nodes, target, len0, a);
  }

  /** After `moveTo` the chain hangs together: on the unit circle the foot
      lies the stride length from the target, and each entry lies its
      successor's link length from that successor (lines 165-173). */
  lemma MovedSpacesChain(m: MathLib, links: seq<Link>, roots: seq<nat>, root: Frame,
                         before: seq<Pose>, staged: seq<Pose>, after: seq<Pose>,
                         nodes: seq<nat>, target: Point, speed: real)
    requires WellFormed(links, roots) && Chain(links, nodes)
    requires |before| == |links| && |staged| == |links| && |after| == |links|
    requires Pythagorean(m)
    requires Moved(m, links, roots, root, before, staged, after, nodes, target, speed)
    ensures var n, foot := |nodes| - 1, staged[nodes[|nodes| - 1]];
      Sq(after[nodes[n]].x - target.x) + Sq(after[nodes[n]].y - target.y)
        == Sq(StrideLength(Distance(m, target, Point(foot.x, foot.y)), speed))
    ensures forall a :: 0 <= a < |nodes| - 1 ==> LinkSpaced(links, after, nodes, a)
  {
    var foot := staged[nodes[|nodes| - 1]];
    PlacedChainSpaced(m, links, root, staged, after, nodes, target,
                      StrideLength(Distance(m, target, Point(foot.x, foot.y)), speed));
  }

  /** `moveTo` moves nothing outside the subtree of the chain's first entry. */
  lemma MovedKeepsOutside(m: MathLib, links: seq<Link>, roots: seq<nat>, root: Frame,
                          before: seq<Pose>, staged: seq<Pose>, after: seq<Pose>,
                          nodes: seq<nat>, target: Point, speed: real)
    requires WellFormed(links, roots) && Chain(links, nodes)
    requires |before| == |links| && |staged| == |links| && |after| == |links|
    requires Moved(m, links, roots, root, before, staged, after, nodes, target, speed)
    ensures forall j :: 0 <= j < |links| && !Descends(links, j, nodes[0]) ==> after[j] == before[j]
  {
    forall j | 0 <= j < |links| && !Descends(links, j, nodes[0])
      ensures after[j] == before[j]
    {
      forall k | 0 <= k < |nodes|
        ensures nodes[k] != j
      {
        ChainDescends(links, nodes, k);
      }
    }
  }

  /** `moveTo`'s three phases together: the relaxed subtree, the backward
      placement and the forward pass make up `Moved`. */
  lemma {:induction false} MovedFrom(m: MathLib, links: seq<Link>, roots: seq<nat>, root: Frame,
                                     before: seq<Pose>, staged: seq<Pose>, after: seq<Pose>,
                                     nodes: seq<nat>, target: Point, speed: real, placed: seq<Point>)
    requires WellFormed(links, roots) && Chain(links, nodes)
    requires |before| == |links| && |staged| == |links| && |after| == |links| && |placed| == |nodes|
    requires Cascaded(m, links, roots, staged, root, before, nodes[0], true, Relax(true))
    requires Traced(m, links, staged, nodes, target,
                    StrideLength(Distance(m, target, Point(staged[nodes[|nodes| - 1]].x, staged[nodes[|nodes| - 1]].y)), speed),
                    placed)
    requires Aligned(m, links, roots, root, staged, after, nodes, placed)
    ensures Moved(m, links, roots, root, before, staged, after, nodes, target, speed)
  {
  }
}
