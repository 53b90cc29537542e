# Greedy pallet-loading planner: the placement engine in Dafny

This project models the core of a planner that loads pallets onto the floor of a
truck hold. The planner works in rounds, greedily:

1. It detects a load mode: **weight**, **volume** or **mixed**. The choice depends
   on how hard the cargo presses on the payload limit and on the floor.
2. It ranks the pallets by value `K` under that mode.
3. It keeps a list of **free rectangles** on the floor.
4. From the best pallets it generates **pattern candidates** (fixed floor
   templates of 2, 3 or 5 pallets) and **single candidates** (one pallet at a
   corner of a free rectangle).
5. It commits the best feasible pattern, or else the best feasible single, and
   marks every remaining pallet unplaced when nothing fits.

Around that loop sit several gates and scores:

- a feasibility gate: inside the hold, no collision, payload and two-axle limits;
- a zone policy along the hold that nudges heavy or large units towards the head;
- a packing-quality score for pattern groups;
- the normalizer that turns a raw pallet row into a unit.

The model is functional throughout:

- every operation is a pure function over immutable datatypes;
- coordinates and weights are `real`;
- every tolerance of the source is a named constant.

The main results:

- **The whole pack.** `Packer.Pack` proves that the placed and unplaced ids
  partition the input. It also proves that no two placed boxes overlap by
  more than the 1e-9 contact tolerance of the collision test, that each lies in
  the hold widened by that tolerance, and that the final loads pass the limits.
- **Free rectangles.** The free-rectangle bookkeeping never hands out floor
  already taken by a committed unit (`FreeRects.ReserveClear`,
  `PlanStates.CommitKeepsFreeClear`).
- **Candidates.** Each generated pattern lays out its members at the template's
  positions (`Patterns.*`), and pattern ids are distinct (`Generators.*`).
- **Choice.** A feasible pattern always wins over singles, and the policy term
  only breaks ties.
- **Parsing.** Rendering a pallet-type code and parsing it back gives the same
  dimensions (`Normalize.ParsePalRoundTrip`, `Normalize.ParseBoxRoundTrip`).

Modules follow the repository's files:

| module | file |
|---|---|
| Wrappers | `Option` and the `Min`/`MinR`/`MaxR`/`AbsR` helpers |
| Text | the string operations the source uses |
| Ordering | the stable sort |
| Domain | domain/types.py |
| Aabb | geometry/aabb.py |
| FreeRects | geometry/free_rects.py |
| ItemCatalog | catalogs/item.py |
| PlacedItems | catalogs/placed_item.py |
| PlanStates | catalogs/plan_state.py |
| Bounds | constraints/bounds.py |
| Axles | constraints/axles.py |
| Policies | constraints/policies.py |
| Coeff | scoring/coeff.py |
| Objective | scoring/objective.py |
| Patterns | candidates/patterns.py |
| Generators | candidates/generators.py |
| PackerParts | the helpers of solver/packer.py |
| Packer | `pack` in solver/packer.py |
| Normalize | services/normalize.py |

## Model

| member | source | states |
|---|---|---|
| Domain.NewItem | domain/types.py:48-79 | a fresh unit has the defaults: zero sizes and weight, ratio 1, status "ok", base but not stackable, zero footprint and volume |
| Domain.Footprint | domain/types.py:78-79 | the footprint is width times length, clamped to zero when either side is not positive |
| Domain.Volume | domain/types.py:75-76 | the volume is the footprint times the height clamped at zero; never negative |
| Domain.Sscc | domain/types.py:153-191 | the exported code is the drop-container id or the unit id, and is non-empty when the id is |
| Domain.ToDict | domain/types.py:153-191 | one exported entry per placed and per unplaced unit, in order, keeping id, code, box and status; every unplaced entry is marked "unplaced"; loads, mode and debug trail carried over |
| Aabb.FromCenter | geometry/aabb.py:9-14 | the box has the requested extents and is centred on the requested point |
| Aabb.OverlapMid | geometry/aabb.py:17-24 | the midpoint of two overlapping open intervals lies in both |
| Aabb.IntersectsIffCommonPoint | geometry/aabb.py:17-24 | with zero tolerance, two proper boxes intersect exactly when some point lies strictly inside both |
| Aabb.IntersectsSymmetric | geometry/aabb.py:17-24 | the intersection test does not depend on argument order |
| Aabb.SeparatedAxisNoIntersection | geometry/aabb.py:17-24 | boxes separated along one axis never intersect, for any non-negative tolerance |
| Aabb.IntersectsAntitone | geometry/aabb.py:17-24 | raising the tolerance can only turn an intersection into a non-intersection |
| Aabb.OutOfBounds | geometry/aabb.py:27-38 | a box is in bounds exactly when every point of it lies in the hold widened by the tolerance |
| Aabb.CollidesWithAny | geometry/aabb.py:41-45 | true exactly when the box intersects some placed unit |
| FreeRects.RectArea | geometry/free_rects.py:15-16 | the area is non-negative, positive exactly for a proper rectangle, and width times depth for an ordered one |
| FreeRects.ContainsIffSubset | geometry/free_rects.py:19-23 | with zero tolerance, containment is exactly point-set inclusion |
| FreeRects.RectContainsReflexive | geometry/free_rects.py:19-23 | every rectangle contains itself |
| FreeRects.ContainsAntisymmetric | geometry/free_rects.py:19-23 | mutual containment with zero tolerance means equality |
| FreeRects.RectIntersectsSymmetric | geometry/free_rects.py:26-31 | the floor intersection test is symmetric, and rectangles that only share an edge do not intersect |
| FreeRects.StripsSound | geometry/free_rects.py:34-57 | each strip cut from a free rectangle lies inside it and is clear of the used rectangle |
| FreeRects.KeepLarge | geometry/free_rects.py:34-57 | keeps exactly the strips whose area exceeds the minimum |
| FreeRects.SplitRect | geometry/free_rects.py:34-57 | at most four pieces; each lies in the free rectangle, avoids the used one and is larger than the minimum area |
| FreeRects.SplitCovers | geometry/free_rects.py:34-57 | every interior point of the free rectangle outside the used one stays covered by some piece |
| FreeRects.ScanContainer | geometry/free_rects.py:60-78 | true exactly when some other rectangle from the scan position on contains the given one |
| FreeRects.PruneContained | geometry/free_rects.py:60-78 | a rectangle survives exactly when no other entry contains it; survivors are distinct and none contains another |
| FreeRects.PruneNoContainment | geometry/free_rects.py:60-78 | after pruning, no survivor contains a different survivor |
| FreeRects.PruneDropsExactDuplicates | geometry/free_rects.py:60-78 | two copies of one rectangle remove each other |
| FreeRects.PruneCovers | geometry/free_rects.py:60-78 | for distinct inputs, every input rectangle is contained in some survivor |
| FreeRects.Normalize | geometry/free_rects.py:85-103 | the result is ordered; each coordinate is the sorted input or a value snapped to zero within the tolerance; an ordered input with no tolerance is unchanged |
| FreeRects.NormalizeIdempotent | geometry/free_rects.py:85-103 | normalizing twice equals normalizing once |
| FreeRects.TryMerge | geometry/free_rects.py:124-144 | a merge exists exactly when the two rectangles have the same span on one axis, within tolerance, and touch or overlap on the other; the merge contains both, and with no tolerance it is their hull |
| FreeRects.MergeKeepsClear | geometry/free_rects.py:124-144 | merging two rectangles clear of a box gives a rectangle clear of it |
| FreeRects.Cleanup | geometry/free_rects.py:178 | the clean-up keeps only rectangles above the area floor, normalized; with no tolerance they are input rectangles, proper and unchanged |
| FreeRects.Sweep | geometry/free_rects.py:162-171 | one sweep only adds absorbed indices and never absorbs the seed; it reports a change exactly when it absorbed something |
| FreeRects.Grow | geometry/free_rects.py:160-171 | growing a seed until no neighbour merges only adds absorbed indices and never absorbs the seed |
| FreeRects.MergePass | geometry/free_rects.py:148-182 | one merge pass never lengthens the list |
| FreeRects.MergeLoop | geometry/free_rects.py:147-184 | the repeated passes keep the list no longer, ordered, and above the area floor |
| FreeRects.MergeAdjacent | geometry/free_rects.py:106-184 | merging never lengthens the list, maps empty to empty, and keeps rectangles ordered and above the area floor |
| FreeRects.MergeAdjacentKeepsClear | geometry/free_rects.py:106-184 | merging free rectangles that avoid a box gives rectangles that still avoid it |
| FreeRects.PassCovers | geometry/free_rects.py:152-172 | with zero tolerance, every ordered input rectangle lies inside one of the pass's grown rectangles, before the pass prunes and cleans up |
| FreeRects.InitForVehicle | geometry/free_rects.py:195-198 | the initial free space is one rectangle centred on the origin with the hold's width and length |
| FreeRects.Reserve | geometry/free_rects.py:203-221 | reserving floor leaves only ordered rectangles |
| FreeRects.ReserveClear | geometry/free_rects.py:203-221 | after reserving a rectangle, no free rectangle overlaps it or any box the free list already avoided |
| ItemCatalog.DimsXY | catalogs/item.py:13-20 | a quarter-turn swaps width and length; any other rotation keeps them |
| ItemCatalog.DimsXYArea | catalogs/item.py:13-23 | rotation never changes the footprint |
| ItemCatalog.VolumeM3 | catalogs/item.py:23-28 | the volume is footprint times height |
| ItemCatalog.MeasuresAgree | catalogs/item.py:23-28 | for non-negative sizes the catalog measures equal the unit's own footprint and volume |
| ItemCatalog.IsBoxLike | catalogs/item.py:35-55 | box-like exactly when the type mentions a box, or the footprint is at most 0.16 m², or the unit is tall (at least 1.6 m) and narrow (at most 0.6 m) |
| ItemCatalog.StandardSizesSwapInvariant | catalogs/item.py:58-84 | the 80×120, 100×120 and 120×120 tests accept either orientation |
| ItemCatalog.IsOversize | catalogs/item.py:87-112 | oversize exactly when the long side reaches 1.60 m plus tolerance, or a side comes within the margin of the hold's width |
| ItemCatalog.LongUnitIsOversize | catalogs/item.py:87-112 | a unit at least 1.61 m long is always oversize |
| ItemCatalog.ItemClass | catalogs/item.py:115-129 | oversize first, then the three standard footprints, then box-like, else other; each class holds exactly under its test |
| ItemCatalog.ItemClassSwapInvariant | catalogs/item.py:115-129 | swapping width and length never changes the class |
| PlacedItems.FromItemAtPose | catalogs/placed_item.py:10-28 | the placed box is centred on the pose, rotated footprint, resting on its floor height; its corner is the box's minimum corner |
| PlacedItems.PlacedFromCandidate | catalogs/placed_item.py:31-42 | the placed unit keeps the candidate's box, pose and extents and the unit's status |
| PlanStates.NewState | catalogs/plan_state.py:15-27 | a new plan has nothing placed, nothing unplaced, no free space, no loads and an empty trail |
| PlanStates.InitFreeRects | catalogs/plan_state.py:29-30 | the free list becomes the hold's floor and nothing else changes |
| PlanStates.Emit | catalogs/plan_state.py:32-33 | emitting appends exactly one event with that name and changes nothing else |
| PlanStates.CanPlace | catalogs/plan_state.py:35-57 | accepted exactly when the box is in the hold, hits no placed unit, and the loads with the unit pass; "oob" is reported before "collision", and a box in the hold and clear of the placed units gets exactly the load check's reasons |
| PlanStates.CommitWith | catalogs/plan_state.py:59-67 | committing appends the placed unit, recomputes loads (payload grows by the unit's weight) and reserves its footprint; nothing else changes |
| PlanStates.Commit | catalogs/plan_state.py:59-67 | commit uses the default tolerances and extends the placed list by one |
| PlanStates.Snapshot | catalogs/plan_state.py:69-79 | the result carries the state's placed, unplaced, loads, trail, vehicle, mode and ids |
| PlanStates.CommitKeepsDisjoint | catalogs/plan_state.py:35-67 | committing an accepted candidate keeps every pair of placed boxes from overlapping by more than the 1e-9 contact tolerance |
| PlanStates.CommitKeepsLoadsWithinLimits | catalogs/plan_state.py:35-67 | after committing an accepted candidate the stored loads pass the limits |
| PlanStates.CommitKeepsFreeClear | catalogs/plan_state.py:59-67 | with exact tolerances, free rectangles stay clear of every placed footprint after a commit |
| PlanStates.InitKeepsFreeClear | catalogs/plan_state.py:29-30 | the initial free floor is clear of an empty placement |
| PlanStates.NoLimitsOnlyGeometry | catalogs/plan_state.py:35-57 | with no payload or axle limits, acceptance depends only on bounds and collisions |
| Bounds.CheckOob | constraints/bounds.py:10-13 | fails with exactly ["oob"] when the candidate leaves the hold, else passes with no reasons |
| Bounds.CheckCollision | constraints/bounds.py:16-19 | fails with exactly ["collision"] when the candidate hits some placed unit; always passes on an empty floor |
| Axles.SumWeightsAppend | constraints/axles.py:10-46 | adding a unit adds its weight to the payload |
| Axles.ComputeLoads | constraints/axles.py:10-46 | the payload is the total weight; without a valid two-axle model both axle loads are zero, else each is the sum of lever shares |
| Axles.AxlesCarryPayload | constraints/axles.py:10-46 | with an axle model the two axle loads add up to the payload |
| Axles.LeverEndpoints | constraints/axles.py:10-46 | a unit standing over axle A loads only A; over axle B, only B |
| Axles.CheckLoads | constraints/axles.py:49-64 | each limit's reason appears exactly when that limit is set and exceeded beyond the slack; no other reasons; no limits means pass |
| Axles.WouldPassWithCandidate | constraints/axles.py:67-76 | the check runs on the loads of the placed units plus the candidate, whose payload grows by its weight |
| Coeff.EffectiveRatio | scoring/coeff.py:10-77 | the floor demand is the ratio when given and positive, else 1; always positive |
| Coeff.TotalFloorDemand | scoring/coeff.py:10-60 | the summed floor demand is non-negative and positive for any non-empty cargo |
| Coeff.Pressure | scoring/coeff.py:10-60 | a pressure is non-negative for non-negative demand and at most 1 when demand is within capacity |
| Coeff.DetectMode | scoring/coeff.py:10-60 | weight mode exactly when weight pressure reaches the threshold and floor pressure does not; volume mode in the mirror case; otherwise mixed with alpha the clamped pressure difference, in [0.2, 0.8]; the floor and volume pressures are the cargo's floor demand and volume over the hold's floor and volume capacity at their fill factors; no cargo gives mixed with alpha 0.5 |
| Coeff.ComputeK | scoring/coeff.py:63-77 | `K` is the weight value, the volume value, or their alpha blend (alpha 0.5 when unset), by mode |
| Coeff.MixBetween | scoring/coeff.py:63-77 | a blend with weight in [0, 1] lies between its two ends |
| Coeff.ComputeKBounds | scoring/coeff.py:63-77 | `K` is never negative, and in mixed mode it lies between the weight and volume values |
| Coeff.DetectedKNonNegative | scoring/coeff.py:10-77 | under any detected mode `K` is non-negative |
| Objective.ScoreCandidate | scoring/objective.py:10-24 | a single's score is one unit, the unit's `K`, the candidate's floor area, and no policy term |
| Objective.ScoreIgnoresPosition | scoring/objective.py:10-24 | moving the candidate never changes its score |
| Ordering.Insert | solver/packer.py:185-186 | inserting into a sorted queue keeps it sorted and adds exactly the new unit |
| Ordering.SortBy | solver/packer.py:185-186 | the queue is sorted by the key and is a permutation of the input |
| Ordering.InsertKeyRun | solver/packer.py:185-186 | inserting a unit puts it in front of the units with its key and leaves every other key's run unchanged |
| Ordering.SortByStable | solver/packer.py:185-186 | the sort is stable: for every key, the units with that key appear in the same order as in the input |
| Policies.XFromHead | constraints/policies.py:52-54 | the distance from the head is the centre's offset from the head wall; zero at the wall |
| Policies.ZoneForZ | constraints/policies.py:57-75 | on the clamped distance from the head: zone A exactly up to the first boundary, B exactly past it and up to the second, C exactly past the first two and up to the third, D exactly past all three |
| Policies.ClampedXMonotone | constraints/policies.py:52-75 | the clamped distance grows with the position |
| Policies.ZoneMonotone | constraints/policies.py:57-75 | further back never gives an earlier zone |
| Policies.DefaultZonesAreQuarters | constraints/policies.py:41-75 | with the default zones, A, B, C and D are the four quarters of the hold, front to back |
| Policies.IsHighValue | constraints/policies.py:119-143 | high value means heavy enough in weight mode, bulky enough in volume mode, and in mixed mode heavy enough against the separate mixed threshold when it is set, else by the weight rule |
| Policies.ModeTerms | constraints/policies.py:146-264 | the mode's bonus or penalty for the zone, as the mode, value and footprint dictate |
| Policies.ClassTerms | constraints/policies.py:146-264 | oversize always earns its bonus; boxes are penalised in the head half and rewarded in the rear half; other classes add nothing |
| Policies.EvaluateCandidatePolicy | constraints/policies.py:146-264 | the decision's zone, class and value flag, bonus and penalty as the sum of mode and class terms; the one hard rejection "oversize_in_D" appears exactly when hard rules are on and an oversize unit lands in D; non-negative coefficients give non-negative terms |
| Policies.HeavyUnitPrefersHead | constraints/policies.py:146-264 | in weight mode with default settings, a heavy unit's net policy is strictly better in the head half than in the rear half |
| Policies.SortKeyForQueue | constraints/policies.py:267-305 | the key is the class priority (from settings, 99 for unknown classes, or the default table), then minus `K` |
| Policies.QueueKAgrees | constraints/policies.py:275-305 | the queue's inline value formula equals `K` |
| Policies.OversizeQueuesFirst | constraints/policies.py:267-305 | with default settings, an oversize unit's key precedes every other class's |
| Patterns.Top | candidates/patterns.py:35-38 | the first `n` units of the list, or all of them, and none for non-positive `n` |
| Patterns.RotFor | candidates/patterns.py:65-69 | rotation 0 exactly when the unit already matches the slot's width and length; otherwise 90 |
| Patterns.RotForOrients | candidates/patterns.py:65-69 | a unit matching the slot either way ends up oriented to the slot |
| Patterns.BuildCandidate | candidates/patterns.py:76-95 | the candidate's box is centred on the pose with the rotated extents; its metadata is the given one plus a rank key |
| Patterns.BuildThenPlaceAgrees | candidates/patterns.py:76-95 | building a candidate and placing it gives the same unit as placing the pallet at that pose |
| Patterns.SelectVariants | candidates/patterns.py:102-178 | variant selection keeps what it has, adds sets in order, never repeats a set of members, and stops at the cap |
| Patterns.TrioIndices | candidates/patterns.py:102-135 | the index triples are distinct, within range, at most the cap, and start with the top three |
| Patterns.QuintIndices | candidates/patterns.py:138-178 | the index quintuples are distinct, within range, at most the cap, and start with the top five |
| Patterns.VariantsTake3 | candidates/patterns.py:102-135 | each variant is three units picked by a triple; none below three units; the first is the top three |
| Patterns.VariantsTake5 | candidates/patterns.py:138-178 | each variant is five units picked by a quintuple; none below five units; the first is the top five |
| Patterns.SpecCounts | candidates/patterns.py:185-432 | the 3-across template holds 3 units; the 3+2 and zigzag templates hold 5 |
| Patterns.MemberMeta | candidates/patterns.py:185-432 | each member's metadata names its pattern, pattern id and rank |
| Patterns.LayRow | candidates/patterns.py:185-432 | a row lays each unit at its slot with the row's orientation and kind |
| Patterns.LayRowsPlaced | candidates/patterns.py:185-432 | laid rows put every member at its template slot |
| Patterns.PatternPacks | candidates/patterns.py:185-432 | every pack places its members at the template slots, and the first variant whose units fit gives the first pack |
| Patterns.PatternPacksExact | candidates/patterns.py:185-432 | the packs are exactly the layouts of the variants whose units fit the template's rows: each pack comes from one such variant, and each such variant gives a pack |
| Patterns.TemplatePacks | candidates/patterns.py:185-432 | no packs when the rectangle is too small or there are too few units; otherwise each pack is the layout of a fitting variant of the top units, every fitting variant's layout is there, and the first comes from the top units |
| Patterns.Gen3Across | candidates/patterns.py:185-227 | no packs when the rectangle is under 2.40 × 1.20 or fewer than three units; otherwise each pack lays out a fitting triple of the top units across the slots, every fitting triple is laid out, and the first comes from the top three |
| Patterns.Gen3Plus2 | candidates/patterns.py:308-370 | no packs under 2.40 × 2.00 or below five units; otherwise each pack lays out a fitting quintuple of the top units in rows of three and two, every fitting quintuple is laid out, and the first comes from the top five |
| Patterns.GenZigzag | candidates/patterns.py:377-432 | no packs under 2.40 × 2.00 or below five units; otherwise each pack lays out a fitting quintuple of the top units at the zigzag slots, every fitting quintuple is laid out, and the first comes from the top five |
| Patterns.AdjacentSlotsCanOverlap | candidates/patterns.py:185-227 | a unit wider than 0.80 m but within tolerance fits the template, yet two neighbouring slots of it intersect |
| Patterns.PairPackPlaced | candidates/patterns.py:234-301 | a 140×120 pallet and an 80×120 pallet sit side by side from the rectangle's left edge |
| Patterns.StdLoop | candidates/patterns.py:234-301 | the inner loop only appends well-placed pairs, up to the cap, and the first fitting pallet gives the next pair |
| Patterns.StdLoopExact | candidates/patterns.py:234-301 | the inner loop adds only pairs of its big pallet with a fitting standard pallet from the scan position on, and adds all of them unless the cap is reached |
| Patterns.BigLoop | candidates/patterns.py:234-301 | the outer loop only appends well-placed pairs, up to the cap |
| Patterns.BigLoopExact | candidates/patterns.py:234-301 | the outer loop adds only pairs of a big pallet that fits, from the scan position on, with a standard pallet that fits beside it, and adds all such pairs unless the cap is reached |
| Patterns.Gen140Plus80 | candidates/patterns.py:234-301 | no packs under 2.20 × 1.20 or with no big or standard units; otherwise each pack is a fitting pair of a top big and a top standard pallet, every fitting pair is there unless the cap of 20 is reached, and the first comes from the top big and standard pallets |
| Generators.DedupFrom | candidates/generators.py:24-43 | removes repeats and already seen points, keeping every new point once |
| Generators.AnchorsForRect | candidates/generators.py:24-43 | up to four distinct corner anchors, exactly the combinations of the rectangle's low and high edges when the slot fits, none otherwise; each keeps the slot inside |
| Generators.ZAnchorsForLen | candidates/generators.py:46-51 | the front and back depth anchors when the slot fits the rectangle's depth, none otherwise |
| Generators.AssignPatternId | candidates/generators.py:54-65 | every member gets the pack id and keeps every other field and metadata entry |
| Generators.PackIdInjective | candidates/generators.py:79-111 | different pack numbers give different ids |
| Generators.ScanRects | candidates/generators.py:71-74 | the scanned rectangles are a sub-multiset of the free ones, at most the limit, by decreasing area, and no free rectangle left out is larger than one kept |
| Generators.Filter | candidates/generators.py:73-74 | keeps exactly the units passing the size test |
| Generators.FilterAppend | candidates/generators.py:73-74 | filtering distributes over concatenation and keeps or drops one unit by the test, so the pools keep the window's order |
| Generators.NumberPacks | candidates/generators.py:79-111 | pack `i` keeps its members in order, each stamped with the id of pack number `start + i` and otherwise unchanged: same pose, box and other metadata |
| Generators.NumberedPacksHaveDistinctIds | candidates/generators.py:79-111 | members of different packs never share a pattern id |
| Generators.SingleCandidate | candidates/generators.py:116-142 | a single sits with its minimum corner at the anchor, with the rotated extents, and carries no pattern id |
| Generators.Singles | candidates/generators.py:116-142 | every single is an anchored placement of some window unit in some scanned rectangle, and every corner anchor of every unit, in both rotations, in every scanned rectangle it fits gives a single |
| Generators.FloorCandidatesCover | candidates/generators.py:68-144 | every pack member is generated, and every generated candidate without a pattern id is a single |
| Generators.SinglesNameQueuedUnits | candidates/generators.py:68-144 | every single names a unit still queued |
| PackerParts.WithKey | solver/packer.py:22-29 | the members with a given pattern key, in order |
| PackerParts.AddCandidateKeepsGroups | solver/packer.py:22-29 | adding a candidate keeps each group equal to the candidates with its key, and every keyed candidate in some group |
| PackerParts.GroupPatternCandidates | solver/packer.py:22-29 | groups are exactly the keyed candidates by key, in input order, with no empty group |
| PackerParts.GroupMembersFromInput | solver/packer.py:22-29 | every group member is an input candidate with the group's key |
| PackerParts.InternalClash | solver/packer.py:32-62 | true exactly when two members of the group intersect |
| PackerParts.MemberGates | solver/packer.py:32-62 | passes exactly when every member is in bounds and hits no placed unit |
| PackerParts.CanCommitGroup | solver/packer.py:32-62 | accepted exactly when members do not clash with each other, each is in the hold and hits no placed unit, and the loads with all of them pass; an internal clash is reported as such |
| PackerParts.CommitGroupEffect | solver/packer.py:354-370 | committing a group appends all its members in order and recomputes the loads; nothing else changes |
| PackerParts.CommitGroupKeepsDisjoint | solver/packer.py:354-370 | committing an accepted group keeps every pair of placed boxes from overlapping by more than the 1e-9 contact tolerance |
| PackerParts.CommitGroupWithinLimits | solver/packer.py:354-370 | after committing an accepted group the loads pass the limits |
| PackerParts.SingletonGroupIsCanPlace | solver/packer.py:32-62 | a one-member group is accepted exactly when its candidate can be placed |
| PackerParts.ApplyPolicyToScore | solver/packer.py:65-74 | only the policy term moves, by the weight times bonus minus penalty |
| PackerParts.PolicyOnlyBreaksTies | solver/packer.py:65-74 | a score ahead before the policy term stays ahead after it |
| PackerParts.PolicyDecidesTies | solver/packer.py:65-74 | between otherwise equal scores, the better net policy wins |
| PackerParts.ScoreGtTransitive | solver/packer.py:322-341 | the single-score order is transitive |
| PackerParts.PatReasonBucket | solver/packer.py:77-89 | "unknown" exactly for no reasons; otherwise the first bucket whose keywords occur in the lower-cased joined reasons |
| PackerParts.InternalClashBucket | solver/packer.py:32-89 | a group rejected for an internal clash lands in the internal-collision bucket |
| PackerParts.OobBucket | solver/packer.py:32-89 | a group rejected for leaving the hold lands in the oob bucket |
| PackerParts.CollisionBucket | solver/packer.py:32-89 | a group rejected for a collision lands in the collision bucket |
| PackerParts.GroupExtent | solver/packer.py:106-118 | `used` is the sum of the members' dx·dz, and the bounding rectangle covers every member |
| PackerParts.ExtentFromExact | solver/packer.py:106-118 | the fold adds each member's footprint area and takes each bound from its start or from some member |
| PackerParts.GroupExtentTight | solver/packer.py:106-118 | the bounding rectangle is the tightest: each side is some member's side, unless every member lies beyond the ±1e18 start on that side |
| PackerParts.Density | solver/packer.py:92-162 | density is used area over bounding area, zero for a degenerate box |
| PackerParts.RectTerms | solver/packer.py:92-162 | the slack is the sum of the four gaps and the touch count the number of flush sides, none without a rectangle |
| PackerParts.PackingQuality | solver/packer.py:92-162 | no score for an empty group; otherwise `used` is the members' summed area, the box area is that of the members' bounding rectangle, slack and touch are measured from that rectangle to the first member's recorded free rectangle, and the quality is the weighted blend of density, touch count (0..4, whole) and slack (≥ 0) |
| PackerParts.FlushPackingTouchesAllSides | solver/packer.py:92-162 | a group inside its rectangle has no slack exactly when its box fills it, and then touches all four sides |
| PackerParts.BoundingBoxCoversMembers | solver/packer.py:92-162 | each member lies inside the group's bounding box |
| Packer.ItemsById | solver/packer.py:175 | the id map has exactly the input ids, each mapped to an input unit with that id |
| Packer.Without | solver/packer.py:369-386 | removes exactly the given ids, keeps the rest, and shrinks the list when any id was present |
| Packer.WithoutAppend | solver/packer.py:369-386 | removal distributes over concatenation and keeps or drops one unit by its id, so the survivors keep their queue order |
| Packer.WindowOf | solver/packer.py:191 | the window is a prefix of the queue: the first `topN` units, or for a negative setting all but the last `-topN`, as Python's slice bound gives |
| Packer.MarkUnplaced | solver/packer.py:347-352 | every remaining unit is kept in order with status "unplaced" |
| Packer.SingleScore | solver/packer.py:322-341 | a single's score is its `K` and area plus the weighted net policy |
| Packer.MaxFrom | solver/packer.py:229-341 | the scan returns the first strictly best option: no option beats it and every earlier one is strictly worse; none exactly when every option is missing |
| Packer.GroupOptions | solver/packer.py:229-308 | a group has a score exactly when it is feasible |
| Packer.BestGroup | solver/packer.py:229-308 | the chosen group is feasible, no feasible group beats it and every earlier feasible group is strictly worse; none exactly when no group is feasible |
| Packer.SingleOptions | solver/packer.py:322-341 | a single has a score exactly when it passes the gates |
| Packer.BestSingle | solver/packer.py:322-341 | the chosen single is feasible, no feasible single beats it and every earlier feasible single is strictly worse; none exactly when no single is feasible |
| Packer.RejectEvents | solver/packer.py:229-308 | rejection events are all "pattern_rejected", at most one per group |
| Packer.PatternRound | solver/packer.py:354-370 | a pattern round shrinks the queue, removes only queued ids and keeps vehicle, mode and unit index, and only appends to the trail |
| Packer.SingleRound | solver/packer.py:373-386 | a single round shrinks the queue, removes only queued ids and keeps vehicle, mode and unit index, and only appends to the trail |
| Packer.ExhaustedRound | solver/packer.py:347-352 | when nothing fits, the round ends, placed is unchanged and the queue is appended as unplaced |
| Packer.Choose | solver/packer.py:229-352 | a pattern is chosen exactly when some group is feasible, and no feasible group scores better; else a single that no feasible single beats; nothing is chosen exactly when no group and no single is feasible |
| Packer.Apply | solver/packer.py:347-386 | the round ends exactly when nothing was chosen; otherwise the queue shrinks |
| Packer.PatternWinsOverSingle | solver/packer.py:229-386 | when a feasible pattern exists, the round commits a feasible group and removes its units, whatever the singles offer |
| Packer.ExhaustionMarksAllUnplaced | solver/packer.py:347-352 | when no pattern and no single is feasible, the round ends with placed unchanged and the whole queue unplaced |
| Packer.PatternRoundKeepsInv | solver/packer.py:354-370 | committing an accepted group keeps the loop invariant: ids partitioned, no two boxes overlapping by more than the 1e-9 contact tolerance, each in the hold widened by 1e-9, loads passing |
| Packer.SingleRoundKeepsInv | solver/packer.py:373-386 | committing an accepted single keeps the loop invariant |
| Packer.RoundKeepsInv | solver/packer.py:190-386 | every round keeps the loop invariant or ends in a sound plan |
| Packer.PackLoop | solver/packer.py:190-386 | the loop ends in a sound plan |
| Packer.Queue | solver/packer.py:185-186 | the queue is the input sorted by the queue key |
| Packer.QueueStable | solver/packer.py:185-186 | units with equal queue keys, such as identical pallets, keep their input order |
| Packer.StartInv | solver/packer.py:166-186 | the start state satisfies the loop invariant |
| Packer.Pack | solver/packer.py:165-394 | the placed and unplaced ids partition the input ids; unplaced units are marked so; no two placed boxes overlap by more than the 1e-9 contact tolerance and each lies in the hold widened by 1e-9; loads pass; the trail starts with "mode_detected"; the mode is the detected one |
| Normalize.NormalizeCodeKey | services/normalize.py:11-14 | the key is empty for a missing code; otherwise each character is the stripped code's character upper-cased, with Cyrillic Х as X: same length as the stripped code and no outer spaces |
| Normalize.NormalizeCodeKeyIdempotent | services/normalize.py:11-14 | normalizing a key again changes nothing |
| Normalize.LookupTara | services/normalize.py:17-21 | a catalog entry is found exactly when the normalized key is non-empty and present |
| Normalize.StackFlags | services/normalize.py:45-48 | the rule for the normalized key, or both flags true when the code is unknown |
| Normalize.ScanNumberSound | services/normalize.py:29-40 | a number is read exactly when a digit follows the spaces; it is the whole run of digits and its value |
| Normalize.DigitsValueAtSlice | services/normalize.py:30-40 | reading the digits in place gives the same value as reading the cut-out run |
| Normalize.ScanSeparator | services/normalize.py:29-40 | a separator is read exactly when X or Cyrillic Х follows the spaces |
| Normalize.ScanGroupsRendered | services/normalize.py:29-40 | numbers rendered with X separators scan back as the same numbers |
| Normalize.MatchAt | services/normalize.py:29-40 | a match starts with the shape's tag and yields the shape's number of groups |
| Normalize.FirstMatch | services/normalize.py:29-40 | the first position at or after the start where the pattern matches, with no match before it, or the end of the text when there is none |
| Normalize.SearchIsFirstMatch | services/normalize.py:29-40 | the search returns the match at the leftmost matching position, and nothing when no position matches |
| Normalize.SearchArity | services/normalize.py:29-40 | a successful search yields the shape's number of groups |
| Normalize.ParseCanonical | services/normalize.py:29-42 | a two-number result exactly when the PAL pattern occurs; a three-number result exactly when it does not and the BOX pattern does; all non-negative |
| Normalize.ParsePalletType | services/normalize.py:24-42 | empty input parses to nothing; otherwise PAL first, then BOX, on the stripped upper-cased text |
| Normalize.ParsePalRoundTrip | services/normalize.py:24-42 | parsing a rendered PAL code gives back its width and length in metres |
| Normalize.ParseBoxRoundTrip | services/normalize.py:24-42 | parsing a rendered BOX code gives back its three sizes in metres |
| Normalize.SafeFloat | services/normalize.py:51-57 | a number exactly for a numeric cell, with that value |
| Normalize.NormalizeRatio | services/normalize.py:60-72 | accepted exactly when positive; missing and non-positive ratios are rejected with their reasons |
| Normalize.NormalizeHeightCm | services/normalize.py:75-90 | accepted exactly in (0, max]; missing, non-positive and too-large heights are rejected with their reasons |
| Normalize.PalletId | services/normalize.py:95-96 | the id is the drop-container id, else the SSCC, else the row id, else "UNKNOWN" |
| Normalize.DimsFor | services/normalize.py:106-118 | catalog sizes in metres when the tare code is known, else the parsed type, else the fallback, each with its status |
| Normalize.CatalogDimsIgnoreSpelling | services/normalize.py:106-118 | two spellings of a known code with the same key give the same sizes |
| Normalize.PickHeight | services/normalize.py:125-151 | the row's height when accepted; otherwise from volume over base area, the type's height, or the fallback, with the matching trail |
| Normalize.PickWeight | services/normalize.py:157-159 | the row's weight when numeric, else the tare weight, else zero |
| Normalize.AreaRatio | services/normalize.py:162-169 | the area fallback is positive and equals the base area when that is positive |
| Normalize.Provenance | services/normalize.py:103-169 | the trail records the height source exactly when the row's height is used, and the area ratio exactly when the row's ratio is rejected |
| Normalize.NormalizePallet | services/normalize.py:93-202 | the unit gets the pallet id as id and shipping code, a positive ratio (the row's when accepted), stackable flags and the raw type |
| Normalize.NormalizedMeasures | services/normalize.py:106-169 | the unit's sizes, height, weight and fallback ratio come from the dims, height, weight and area rules |
| Normalize.NormalizedTypeKey | services/normalize.py:183-202 | the normalized type is the code key of the raw type |
| Normalize.NormalizedStatus | services/normalize.py:103-169 | the status is the provenance trail joined with "\|" |
| Normalize.StatusMentionsTrail | services/normalize.py:103-169 | every trail token occurs in the status |
| Normalize.RowHeightWins | services/normalize.py:125-133 | an accepted row height becomes the unit's height in metres and the status says so |
| Text.DigitsValueOfNatToString | services/normalize.py:30-40 | reading back a number's decimal digits gives the number |
| Text.NatToStringInjective | services/normalize.py:30-40 | different numbers have different decimal renderings |
| Text.Upper | services/normalize.py:14 | each small Latin or Cyrillic letter becomes its capital, every other character stays, and the length is kept |
| Text.Lower | solver/packer.py:80 | each Latin or Cyrillic capital becomes its small letter, every other character stays, and the length is kept |
| Text.UpperIdempotent | services/normalize.py:14 | upper-casing twice is upper-casing once |
| Text.ReplaceChar | services/normalize.py:14 | the length is kept, each occurrence of the replaced character becomes the new one, every other character is kept, and the replaced character no longer occurs |
| Text.Strip | services/normalize.py:14 | the stripped text has no whitespace at either end |
| Text.StripTrims | services/normalize.py:14 | the stripped text is one contiguous slice of the input, and everything cut off on either side is whitespace |
| Text.JoinContains | services/normalize.py:133-169 | every joined part occurs in the joined text |

## Left out

- Floating point: every length, weight and score is an exact `real`. Rounding, NaN and infinity are not modelled. The geometric theorems (coverage, avoidance, disjointness through merges) are proved with the tolerances set to zero.
- The `round(…, 6)` keys that de-duplicate anchors and variants are exact equality on reals and multisets of indices.
- `_safe_float` accepts anything Python's `float()` accepts; the model's cell is already classified as missing, numeric or unparsable.
- String handling covers ASCII and basic Cyrillic letters for upper and lower case, and ASCII whitespace (space, tab to carriage return, and the separators 0x1C to 0x1F) for `strip()` and the regular expressions' `\s`. Python's full Unicode tables are not modelled.
- The pallet-type regular expressions are modelled as a hand-written scanner with leftmost search; `\d+` is ASCII digits.
- The tare catalog, the stack rules table, the vehicle table and the `SETTINGS` object are parameters or configuration records, not the repository's tables.
- The debug trail keeps event names only; payloads and the `debug_log` callback are I/O and are not modelled. The reject-log cap is modelled only as "at most one event per group".
- `_apply_policy_to_score` returning its input unchanged when the score or policy is `None`: the model never produces a missing score.
- The packaging catalog, vehicle lookup, re-optimisation, service entry points, database, fetching and HTTP layers are not part of this model.
- Patterns.StdLoop: its own contract states placement, the prefix and the first pair; which pairs it adds, and that it adds every fitting pair below the cap, is stated by `Patterns.StdLoopExact`.
- Patterns.BigLoop: its own contract states placement, the prefix and the first pair; which pairs it adds, and that it adds every fitting pair below the cap, is stated by `Patterns.BigLoopExact`.
- PackerParts.GroupExtent: its own contract gives the summed area and a covering box; that the box is the tightest one is stated by `PackerParts.GroupExtentTight`, because the existential over members made the quality score's proof too costly.
- Text.Strip: its own contract states only that no whitespace is left at either end; that the result is one slice of the input with only whitespace cut off on both sides is stated by `Text.StripTrims`.
- FreeRects.PruneContained: states which rectangles survive, not that they keep their input order.
- FreeRects.Reserve: coverage of the remaining free floor after a reservation is proved for one split (`FreeRects.SplitCovers`) and, with zero tolerance, for the growing stage of one merge pass (`FreeRects.PassCovers`); it is not proved through the pass's prune and clean-up, which drops rectangles at or below the area floor, nor through repeated passes.
- FreeRects.Reserve: its avoidance theorem `FreeRects.ReserveClear` needs zero tolerances.
- PackerParts.PatReasonBucket: the "axles" bucket is stated only as what remains after the other five.
- Packer.Pack: the first debug event is proved; the order of the later events is not.
