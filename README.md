# Crawling creature: a verified model of the simulation engine

This project models the simulation engine of the crawling-creature demo in
`src/app/utils/Creature.tsx`. It also proves what that engine promises. A
creature is a body (`Creature`) with a tree of rigid segments (`Segment`)
hanging from it. Leg controllers (`LegSystem`) each own a chain of segments
ending in a foot. Every tick the body runs `follow` towards a target point:

- it accelerates in proportion to the share of planted legs;
- it turns towards the target, with a turning threshold and friction that
  snaps the turning speed to zero;
- it wraps its heading into one turn and moves;
- it then turns its facing by half a turn, drags every segment after its
  parent, lets every leg step, and turns the facing back.

Each leg step is a `moveTo` of the foot towards its goal, followed by the
two-state gait machine (planted or swinging).

The modules follow the program's structure:

- `Angles`: the wrap step, which moves an angle by whole turns into a window
  centred on a rest angle, and the clamp.
- `Maths`: the host's `Math.cos`, `Math.sin`, `Math.atan2` and `Math.sqrt`,
  carried as an arbitrary `MathLib` value. Every theorem holds whatever
  these functions return, unless it names a hypothesis about them. Three
  hypotheses occur: `SqrtNonNeg` (square roots of non-negative numbers are
  non-negative), `SqrtExact` (square roots are exact) and `Pythagorean`
  (cosine and sine lie on the unit circle).
  The lemmas about lengths take `SqrtExact` or `Pythagorean` as premises;
  only the `LegSystem` constructor requires `SqrtNonNeg`.
- `Skeleton`: the segment tree as an arena.
  - Segment `j` is `links[j]` plus `poses[j]`. `links[j]` is what its
    constructor fixes: parent, children, size, rest angle, range and
    stiffness. `poses[j]` is what every tick rewrites: the relative
    angle, the absolute angle, `x` and `y`.
  - A parent is the body (`Root`, the object without `isSegment`) or an
    earlier segment.
  - The module holds the angle rule of `updateRelative` and `follow`. It
    also holds the pre-order cascade lemmas: updating one child's subtree
    keeps everything updated before it.
- `Kinematics`: a leg's chain, the backward placement pass and the
  forward pass of `moveTo`. Its lemmas show that the forward pass leaves
  every segment below the chain up to date exactly once.
- `Locomotion`: the body's motion law for one tick, as pure functions.
- `Gait`: the stride geometry and the gait machine of `update`, as a pure
  function `Advance`.
- `Simulation`: the classes.
  - `Creature` owns the arena. Its methods `AddSegment`, `UpdateRelative`
    and `FollowSegment` are the `Segment` constructor, `updateRelative`
    and `follow`. They take the segment's index.
  - `Follow` is `Creature.follow`.
  - `LegSystem` holds the constructor, `MoveTo` and `Update`.
  - Each method is proved against the functions and predicates above.

The wrap step subtracts `2π * Math.floor(d / 2π + 1/2)` turns from an angle
`d` away from its centre (lines 49-53, 299 and 313-314). That puts the result
in [−π, π) around the centre, so an angle exactly half a turn away is wrapped
to minus half a turn. `Skeleton.HalfTurnSettlesClockwise` states what this
means for a segment with range π and stiffness 2: its relative angle π
becomes −π/2, not π/2.

## Model

| member | source | states |
|---|---|---|
| Angles.Wrap | src/app/utils/Creature.tsx:49-53 | the wrapped angle differs from the input by a whole number of turns and lies in [c − π, c + π) around the centre c |
| Angles.WrapUnique | src/app/utils/Creature.tsx:49-53 | the wrap picks the only value in the window that differs from the input by whole turns |
| Angles.WrapIdempotent | src/app/utils/Creature.tsx:49-53 | wrapping an already wrapped angle changes nothing |
| Angles.WrapPeriodic | src/app/utils/Creature.tsx:298-299 | the wrap depends on the angle only up to whole turns |
| Angles.Clamp | src/app/utils/Creature.tsx:56-62 | `min(hi, max(lo, v))` lies in [lo, hi] when lo ≤ hi; it is v inside the interval, the nearer bound outside it, and hi when the bounds are crossed |
| Maths.Max | src/app/utils/Creature.tsx:296 | `Math.max` is an upper bound of both arguments and equals one of them |
| Maths.Sq | src/app/utils/Creature.tsx:220 | a square is never negative |
| Maths.Distance | src/app/utils/Creature.tsx:162 | the distance `Math.sqrt(dx ** 2 + dy ** 2)` is non-negative when square roots of non-negative numbers are |
| Maths.PolarLength | src/app/utils/Creature.tsx:66-67 | on the unit circle, the point `len` along any angle from the origin is `len` away from it |
| Locomotion.Abs | src/app/utils/Creature.tsx:301 | `Math.abs` is non-negative and equals the value or its negation |
| Locomotion.Sign | src/app/utils/Creature.tsx:302 | `2 * Number(v > 0) - 1` times v is the magnitude of v |
| Locomotion.Acceleration | src/app/utils/Creature.tsx:285-292 | the forward acceleration is `fAccel` with no legs or all legs planted and 0 with none planted; otherwise it lies between 0 and `fAccel` |
| Locomotion.Thrust | src/app/utils/Creature.tsx:294-295 | the acceleration is added only when the target is further than `fThresh`; resistance then scales the speed |
| Locomotion.GroundSpeed | src/app/utils/Creature.tsx:296 | the ground speed is never negative: `fSpeed − fFric` above friction, otherwise 0 |
| Locomotion.Damp | src/app/utils/Creature.tsx:305 | with a resistance in [0, 1] damping never increases the magnitude of the turning speed or flips its sign; resistance 0 keeps it and resistance 1 stops it |
| Locomotion.Steer | src/app/utils/Creature.tsx:301-303 | the turning speed changes only when the heading error is above `rThresh` and the target is further than `fThresh`; then `rAccel` is taken off in the direction of the error |
| Locomotion.Spin | src/app/utils/Creature.tsx:306-310 | within `rFric` of zero the turning speed snaps to exactly 0; otherwise it loses `rFric` in magnitude; friction never flips its sign or increases its magnitude |
| Locomotion.Tick | src/app/utils/Creature.tsx:282-316 | after one tick the ground speed is non-negative and the heading lies in [−π, π) |
| Locomotion.NoSpinNearTarget | src/app/utils/Creature.tsx:301-310 | a body not turning that is within `fThresh` of its target stays not turning, whatever its heading error |
| Gait.Jitter | src/app/utils/Creature.tsx:202 | the random jitter of a stride goal lies within ±reach/2 |
| Gait.SwingAngle | src/app/utils/Creature.tsx:156 | the swing angle plus the wrapped relative angle is a quarter turn, π/2 when the relative angle is negative and −π/2 otherwise |
| Gait.StrideGoal | src/app/utils/Creature.tsx:198-207 | the new stride goal lies within ±reach/2 on each axis of the point `reach` along the stride direction from the hip |
| Gait.Forwardness | src/app/utils/Creature.tsx:210-216 | on the unit circle the foot's projection on the hip's heading is at most the hip-to-foot distance in magnitude |
| Gait.StrideIsQuarterTurn | src/app/utils/Creature.tsx:152-157 | at construction the stride direction is a quarter turn from the hip-to-foot direction, on the side away from the body's heading: counter-clockwise when the heading is clockwise of the foot, clockwise otherwise. It points forward during `follow` only because the facing is turned by π there (line 318) |
| Gait.Advance | src/app/utils/Creature.tsx:192-225 | planted: within 1 of its goal nothing changes, otherwise the foot starts swinging with a goal within ±reach/2 on each axis of the stride point; swinging: `forwardness` becomes the new projection, and the foot lands with its own position as goal exactly when the projection changed by a square less than 1; `step` stays in {0, 1} |
| Skeleton.Settle | src/app/utils/Creature.tsx:49-63 | without `flex` the relative angle is only wrapped; with `flex` and a non-negative range it ends within range/2 of the rest angle, whatever it was before |
| Skeleton.SettleRelaxes | src/app/utils/Creature.tsx:55-63 | with stiffness at least 1 the elastic step moves the angle towards rest and never past it |
| Skeleton.HalfTurnSettlesClockwise | src/app/utils/Creature.tsx:49-63 | a relative angle of π with rest 0, range π and stiffness 2 settles at −π/2: wrapped first, divided by the stiffness, then limited |
| Skeleton.Placed | src/app/utils/Creature.tsx:65-67 | the placed segment keeps the given relative angle, its absolute angle is the parent's plus it, and on the unit circle its end lies `size` from the parent's point |
| Skeleton.PulledOnRay | src/app/utils/Creature.tsx:90-95 | with exact square roots and a segment off its parent's point, `follow` moves the segment's point onto the ray from the parent's point through where it stood, at distance `size`: the new offset is parallel to the old, points the same way, and has length `size` |
| Skeleton.ScaledOffset | src/app/utils/Creature.tsx:94-95 | scaling an offset of length `dist > 0` by `size / dist` keeps its direction and gives it length `size` |
| Skeleton.CoveredAll | src/app/utils/Creature.tsx:69-73 | once all children of a segment are done, exactly its subtree is done |
| Skeleton.CascadeStep | src/app/utils/Creature.tsx:69-73 | in the pre-order cascade, updating the next child's subtree keeps the segment and the earlier subtrees up to date and leaves everything else untouched |
| Skeleton.AttachPushes | src/app/utils/Creature.tsx:31-35 | a new segment is appended with no children; the only earlier segment that changes is its parent, which gets the new index at the end of its child list; the body's list grows exactly when the body is the parent |
| Skeleton.AttachKeepsWellFormed | src/app/utils/Creature.tsx:31-35 | adding a segment keeps the arena a tree whose child lists agree with the parent links |
| Skeleton.AttachKeepsChildren | src/app/utils/Creature.tsx:32-35 | after a push every child list still names children of its owner, each once |
| Skeleton.AttachKeepsParents | src/app/utils/Creature.tsx:31-34 | after a push parents still come before their children and still list them |
| Skeleton.AttachKeepsRoots | src/app/utils/Creature.tsx:32-34 | after a push the body's list still names exactly its children, each once |
| Skeleton.TopIsRoot | src/app/utils/Creature.tsx:319-321 | every segment hangs under one of the body's children |
| Skeleton.RootStep | src/app/utils/Creature.tsx:319-321 | dragging the next child of the body with its subtree keeps the earlier subtrees done |
| Skeleton.TrailedSpaced | src/app/utils/Creature.tsx:94-98 | on the unit circle, once every segment has trailed, each lies exactly its own size from its parent's point: `follow` keeps every link's length |
| Kinematics.ChainIncreasing | src/app/utils/Creature.tsx:130-139 | a leg's chain climbs strictly through the arena |
| Kinematics.ChainDistinctAt | src/app/utils/Creature.tsx:165-173 | no segment occurs twice in a chain, so each entry is placed once |
| Kinematics.ChainDescends | src/app/utils/Creature.tsx:161 | every chain entry lies in the subtree that the first `updateRelative` relaxes |
| Kinematics.CollectChain | src/app/utils/Creature.tsx:130-139 | the collected chain ends at the foot, links parent to child, has the final `length` entries (at most the requested number), and is shorter only when it reached the body |
| Kinematics.SproutIsOffChainChild | src/app/utils/Creature.tsx:181-185 | every off-chain segment below the chain lies under an off-chain child of a chain entry |
| Kinematics.StrideLength | src/app/utils/Creature.tsx:163 | the remaining foot-to-target length is non-negative: `dist − speed` or 0 |
| Kinematics.FootOnTargetWhenClose | src/app/utils/Creature.tsx:162-169 | a foot within `speed` of its target is put exactly on the target |
| Kinematics.Toward | src/app/utils/Creature.tsx:167-169 | on the unit circle the placed point lies `len` from the point it is placed from |
| Kinematics.BackwardSpacing | src/app/utils/Creature.tsx:165-173 | on the unit circle the backward pass puts the foot `len` from the goal and every earlier entry its successor's link size from where the successor was put |
| Kinematics.PlacedSpacedAt | src/app/utils/Creature.tsx:165-173 | two entries standing on their backward placements `a` and `a + 1` lie the link size of `a + 1` apart |
| Kinematics.PlacedChainSpaced | src/app/utils/Creature.tsx:165-173 | a chain standing on its backward placements has the foot `len` from the goal and each entry after the first its link length from its predecessor |
| Kinematics.MovedSpacesChain | src/app/utils/Creature.tsx:160-187 | after `moveTo`, on the unit circle, the foot lies the stride length from the goal and each entry after the first lies its link length from its predecessor |
| Kinematics.MovedKeepsOutside | src/app/utils/Creature.tsx:160-187 | `moveTo` moves no segment outside the subtree of the chain's first entry |
| Kinematics.ForwardChainStep | src/app/utils/Creature.tsx:175-180 | aiming the next chain entry keeps the earlier entries and the finished off-chain subtrees up to date |
| Kinematics.ForwardChildStep | src/app/utils/Creature.tsx:181-185 | the inner loop skips a child on the chain and updates an off-chain child's subtree without disturbing anything done so far |
| Kinematics.ForwardSproutStep | src/app/utils/Creature.tsx:181-185 | updating the subtree of an off-chain child touches no chain entry and no other off-chain subtree |
| Kinematics.ForwardChildrenDone | src/app/utils/Creature.tsx:175-186 | after all children of a chain entry, everything hanging from it off the chain is done |
| Kinematics.ForwardAll | src/app/utils/Creature.tsx:175-186 | at the end of the forward pass every chain entry is aimed and exactly the off-chain segments below the chain are re-derived |
| Kinematics.PlacedStep | src/app/utils/Creature.tsx:165-173 | placing chain entry i moves that entry's point only |
| Kinematics.PlacedAll | src/app/utils/Creature.tsx:165-173 | once every entry is placed, the backward pass has put each entry on its placement with its angles unchanged |
| Kinematics.ForwardStart | src/app/utils/Creature.tsx:165-175 | the backward pass leaves the forward pass ready to start, with nothing aimed and nothing off the chain moved |
| Kinematics.MovedFrom | src/app/utils/Creature.tsx:160-187 | the relaxed subtree, the backward placements and the forward pass together make up `moveTo`'s effect |
| Simulation.Creature.constructor | src/app/utils/Creature.tsx:262-278 | a body at rest at the given point and heading, with the given constants and no segments or legs |
| Simulation.Creature.AddSegment | src/app/utils/Creature.tsx:22-46 | the new segment gets the next index and is pushed onto its parent's children; no other pose changes; it starts at its rest angle and is placed relaxed from its parent |
| Simulation.Creature.Push | src/app/utils/Creature.tsx:30-44 | the arena grows by the new segment as `Attach` says, with its starting pose appended, and stays a well-formed tree |
| Simulation.Creature.LegsDistinct | src/app/utils/Creature.tsx:128 | the legs registered with a creature are distinct objects |
| Simulation.Creature.UpdateRelative | src/app/utils/Creature.tsx:48-74 | the segment (with `iter`, every segment below it) has its settled relative angle, the absolute angle and end point that follow from its parent's pose, and every other segment keeps its pose |
| Simulation.Creature.FollowSegment | src/app/utils/Creature.tsx:89-105 | the segment (with `iter`, its whole subtree) is pulled back towards its parent and settled, in pre-order after its parent; every other segment keeps its pose |
| Simulation.Creature.Follow | src/app/utils/Creature.tsx:281-326 | the body's speeds, heading and position are one `Tick` of the motion law, with the planted count taken before the legs step; with the facing flipped every segment trailed its parent into `trailed`; from `trailed` the legs stepped one after another through `stages`, each leg's `moveTo` taking the poses from one stage to the next and its gait state becoming `Advance` of its old state on the foot and hip of the next stage; the last stage is the final poses; the arena and leg invariants are kept |
| Simulation.Creature.Move | src/app/utils/Creature.tsx:282-316 | the body's six moving values become one `Tick` towards the target; the arena and the legs are untouched |
| Simulation.Creature.Drag | src/app/utils/Creature.tsx:318-325 | with the facing turned by π every segment trails its parent and the legs step as under `Follow`, from `trailed` to the final poses; the body itself, facing included, ends as it was |
| Simulation.Creature.Turn | src/app/utils/Creature.tsx:318 | the facing turns by the given angle; nothing else changes |
| Simulation.Creature.TrailAndStep | src/app/utils/Creature.tsx:319-324 | every segment trails its parent into `trailed`, then the legs step as under `Follow` from `trailed` to the final poses |
| Simulation.Creature.TrailAll | src/app/utils/Creature.tsx:318-321 | every segment has trailed its parent in the order of the body's children |
| Simulation.Creature.StepLegs | src/app/utils/Creature.tsx:322-324 | the legs step in order through `stages`, from the old poses to the new: leg k's `moveTo` takes stage k to stage k + 1 and its gait state becomes `Advance` of its old state on the foot and hip in stage k + 1 |
| Simulation.Creature.StepNext | src/app/utils/Creature.tsx:322-324 | one more pass of the loop extends the walk by leg k's step, and the legs after it keep their gait states |
| Simulation.Creature.StepLeg | src/app/utils/Creature.tsx:323 | leg k steps as `LegStepped` says and no other leg's gait state changes |
| Simulation.WalkedEach | src/app/utils/Creature.tsx:322-324 | in a walk of n legs every leg k < n went from stage k to stage k + 1 by its own `moveTo` and gait step |
| Simulation.WalkedGrow | src/app/utils/Creature.tsx:322-324 | a walk over the first legs is kept when later stages are added and later legs change their gait states |
| Simulation.WalkedStep | src/app/utils/Creature.tsx:322-324 | the step of leg k appended to a walk of k legs gives a walk of k + 1 legs |
| Simulation.GaitsAt | src/app/utils/Creature.tsx:322-324 | the list of gait states holds each leg's state at that leg's place |
| Simulation.GaitsUpdated | src/app/utils/Creature.tsx:323 | when only leg k may change, the new list of gait states is the old one with leg k's entry replaced |
| Simulation.PlantedCount | src/app/utils/Creature.tsx:287-290 | the planted count is at most the number of legs |
| Simulation.PlantedCountExtremes | src/app/utils/Creature.tsx:285-292 | the count is the number of legs exactly when all are planted, and 0 exactly when none is |
| Simulation.LegSystem.constructor | src/app/utils/Creature.tsx:123-158 | the chain ends at `end`, links parent to child, has `length` entries (at most the requested number, fewer only at the body); the hip is the first entry's parent; planted, with the foot's position as goal, `forwardness` 0; the reach and stride angles are read from the current foot and hip; the leg is appended to `systems` |
| Simulation.LegSystem.MoveTo | src/app/utils/Creature.tsx:160-187 | the chain's subtree is relaxed, the chain placed backwards from the goal and aimed forwards, the off-chain segments below it re-derived; nothing else moves |
| Simulation.LegSystem.PlaceChain | src/app/utils/Creature.tsx:162-173 | each chain entry is put on its backward-pass placement; only the chain's points change |
| Simulation.LegSystem.AimChain | src/app/utils/Creature.tsx:175-186 | every chain entry is aimed at its placement and exactly the off-chain segments below the chain are re-derived |
| Simulation.LegSystem.Update | src/app/utils/Creature.tsx:189-226 | `moveTo` the old goal, then the gait state becomes `Advance` of the old state on the foot and hip where `moveTo` left them |
| Simulation.LegSystem.Step | src/app/utils/Creature.tsx:191-225 | the gait state becomes `Advance` of the old state; nothing of the body changes |

## Left out

- The `draw` methods of `Segment` and `Creature` (lines 76-87 and
  328-357) are not part of this model: they only draw on a canvas.
- `src/app/Creature.tsx` (the React component, its animation loop and the
  `setupLizard` assembly), `src/app/page.tsx` and `src/app/utils/input.tsx`
  are not part of this model. The target point is a parameter of `Follow`.
- Floating-point arithmetic is modelled by exact reals. `Math.PI` is the
  decimal 3.141592653589793. Trigonometry and square roots are arbitrary
  functions. Link lengths after `updateRelative`, `follow` and `moveTo`
  are stated on the unit-circle hypothesis `Pythagorean`. Where `follow`
  puts a segment before `updateRelative` re-places it is stated on the
  exact-root hypothesis `SqrtExact`.
- `Math.random` (lines 202 and 207) becomes a pair of draws in [0, 1) per
  leg, passed to `Follow` and `Update`.
- Skeleton.Pulled: when a segment sits exactly on its parent's point, the
  source divides by zero (lines 92-95) and produces NaN. The model keeps the
  pose instead.
- Simulation.Creature.AddSegment: requires a non-zero stiffness. The source
  divides by it (line 60), and NaN and infinite angles are not modelled.
- Simulation.LegSystem.constructor: requires `length ≥ 1`, an integer.
  With a smaller `length` the source collects no chain and fails at line
  141. So `Math.max(1, length)` (line 125) only matters there. A
  fractional `length` is not modelled.
- Kinematics.MovedSpacesChain: says nothing of the link from the hip to the
  chain's first entry. `moveTo` does not keep it: the backward pass places
  the first entry its successor's link length from that successor (lines
  165-173), and the forward pass only re-derives angles (lines 175-180).
- Simulation.LegSystem.constructor: requires `SqrtNonNeg`, so that the
  reach is non-negative.
- The arena after each leg's step is ghost output of `StepLegs`
  (`stages`, with the relaxed poses of each `moveTo` in `relaxed`).
  `moveTo`'s effect is stated as a relation over the arena, not a
  function, so the stages are witnesses rather than computed values.
- Segments are indices into the creature's arena rather than separate
  objects. A segment's parent is its own creature's body or one of its own
  earlier segments. Hanging a segment from a body-like object without a
  `children` array is not modelled; the `typeof parent.children` condition at
  line 32 always succeeds here.
- Every leg in `systems` belongs to the creature that holds it
  (`LegsValid`), and a leg's `step` stays 0 or 1. `Advance` also treats any
  other value, by changing nothing, as the source does.
