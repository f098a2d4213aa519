# Container packing, modelled in Dafny

This project models the core of CromulentBisgetti.ContainerPacking, a C#
library that packs rectangular items into one rectangular container. Each
item has an id, three raw dimensions and a quantity. The model covers
three parts:

- the `Item` record;
- **AK_PACK**, a brute-force recursive packer. It tries the six
  orientations of every unit in turn. Each unit goes to the first free
  integral position of a height/width/length scan. Branches are compared
  by a fill rank from 0 to 200.
- **EB_AFIT**, a layer packer. It tries the container in each of its six
  orientations ("variants"). For each variant it sorts a list of layer
  thicknesses and runs one iteration from each entry 1, 2, ... of it.
  An iteration packs layer by layer along an edge of "scrap pads", a
  doubly linked list of gaps. The search keeps the variant and entry
  index of the iteration that packs the most volume. Report then packs
  once more, from that index of a freshly built list, to record the
  packed units in order.

Modules, one per file:

| file | module | what it holds |
|---|---|---|
| `item.dfy` | `Entities` | `Item`, `Container` and `AlgorithmPackingResult` as values; the five-argument and copy constructors; volume; orientation as a permutation of the raw dimensions |
| `sorting.dfy` | `StableSort` | a stable sort by a real key, modelling LINQ's `OrderBy` and `OrderByDescending` |
| `akpack.dfy` | `AkPack` | AK_PACK as functions, with methods for its loops: the placement scan, the fill rank, the recursive search and `Run` |
| `skyline.dfy` | `Skyline` | a layer's edge as a value (a sequence of gaps); the five placement situations and the evening-out step as functions on it |
| `scrappads.dfy` | `ScrapPads` | the linked list of scrap pads, kept in an arena with `pre`/`post` indices; how each link change acts on the edge it holds |
| `afit_spec.dfy` | `AfitSpec` | the specification functions for EB_AFIT: units, orientations, the box choice, the layer-thickness choice and candidate list, the totals, and the best of the iterations |
| `afit.dfy` | `Afit` | EB_AFIT as a class `EbAfit` whose fields are the packer's fields; each private method is a method with `modifies`; plus `Run` |

How the model represents the C# code:

- C# `decimal` is modelled as `real`. The library's 28-digit rounding is
  not modelled. `Math.Ceiling` is `-Floor(-x)`.
- AK_PACK copies items for every branch (`new Item(...)`, `new
  List<Item>(...)`), so it is modelled on values.
- EB_AFIT updates its unit list in place. `itemsToPack` is a `seq<Item>`
  field that the methods reassign.
  - Index 0 holds the dummy item Initialize adds, and so does index
    `itemsToPackCount + 1`. The units are at 1..`itemsToPackCount`, as in
    the source.
  - `itemsPackedInOrder` holds references in C#, so Run's later
    `Quantity = 1` shows through it. It is modelled as the indices of the
    units in placement order, which keeps that effect.
- The scrap-pad list is an arena `pads: seq<ScrapPad>`; `Null` (-1)
  stands for a null link. The ghost field `nodes` lists the nodes reached
  from the head, and `Sky()` is the edge they hold.
- Every link change in `PackLayer` and `CheckFound` is proved to act on
  `Sky()` exactly as the matching function of `Skyline` says.
- Report computes two percentages. C# decimal division by zero throws, so
  Report fails when there is no unit or the container has no volume.
  `Afit.Run` returns the `DivideByZero` outcome in that case.
- The six-way `switch` statements over the variant
  (EB_AFIT.cs:310-336, 739-815, 1147-1173) are the functions
  `AfitSpec.VariantDims` and `AfitSpec.Reoriented`.

Behaviour of the code that the model keeps, and proves things about:

- Sub-situation 4A, box placed at the right end of the gap and levelled
  with its neighbours: the code first moves the gap's right end left by
  the box width, then sets the box's coordinate to that moved end minus
  the box width again (EB_AFIT.cs:1026-1030). The coordinate is off by one
  box width. `Skyline.ShiftedCoordinateOffByWidth` states the general case
  and `Skyline.ShiftedCoordinateLeavesGap` exhibits an edge where the
  coordinate falls outside the gap. Because of this branch, EB_AFIT's
  placements are not proved free of overlap.
- FindBox's inner loop condition `x < x + Quantity - 1` (EB_AFIT.cs:427)
  does not bound the loop by the group. For a group of more than one unit
  the scan runs on to the first unpacked record, and the closing sentinel
  always stops it. `Afit.EbAfit.FirstUnpacked` states this.
- The layer list is not cleared between variants (EB_AFIT.cs:337-339).
  Each variant appends a pad (evaluation -1). ListCanditLayers then
  appends one blank entry (evaluation 0, thickness 0) per candidate and
  writes the candidates over entries 1, 2, ... (EB_AFIT.cs:705-709).
  The list is then sorted again by evaluation.
  - The new pad survives unless there are at least as many candidates as
    entries before it. Older entries beyond the candidates survive too,
    and so do the blanks.
  - `Afit.EbAfit.StartVariant` states the sorted list exactly, as
    `AfitSpec.Recorded` of the old list.
  - `AfitSpec.ReusedListStartsAtZero` shows the consequence. In every
    variant after the first, entry 1 of the sorted list is a pad or a
    blank, of thickness 0, when the candidates have positive evaluations.
    That variant's first iteration then starts from thickness 0 and packs
    nothing.
  - The iterations still run over entries 1..layerListLen only, so some
    candidates of a later variant are never tried.
- Report rebuilds the list from scratch (EB_AFIT.cs:1192-1195) and starts
  from its entry at the best iteration's index (EB_AFIT.cs:1199).
  - The search took that index in the reused list, so for a best
    iteration of variant 2 or later the two entries need not agree. The
    replay can then start from another thickness and pack something other
    than the best volume.
  - `Afit.EbAfit.FreshLayers` states the fresh list, with the pad first
    (`AfitSpec.FreshListStartsWithPad`). `Afit.EbAfit.StartVariant` states
    the reused one. The model does not claim that the replay repeats the
    best iteration.
- Report divides by the total item volume and by the container volume
  (EB_AFIT.cs:1176-1177). C# decimal division by zero throws, so the
  model ends in the `DivideByZero` outcome there. AK_PACK's
  `GetFillRank` returns 0 for a container of no volume instead
  (AK_PACK.cs:201).

## Model

Source paths are relative to the repository root.

| member | source | states |
|---|---|---|
| Entities.NewItem | src/CromulentBisgetti.ContainerPacking/Entities/Item.cs:30-41 | the five-argument constructor keeps the id, the three raw dimensions and the quantity given; the item starts unpacked, at the origin, with no packed extents |
| Entities.CopyItem | src/CromulentBisgetti.ContainerPacking/Entities/Item.cs:43-61 | the copy constructor carries over every field of the original |
| Entities.CopyIsEqual | src/CromulentBisgetti.ContainerPacking/Entities/Item.cs:43-61 | a copy is equal to its original and has its volume, so AK_PACK's per-branch copies behave as values |
| Entities.VolumeIgnoresPlacement | src/CromulentBisgetti.ContainerPacking/Entities/Item.cs:177 | the volume depends on the raw dimensions only: packing flag, coordinates, packed extents and quantity never change it |
| Entities.NewItemVolume | src/CromulentBisgetti.ContainerPacking/Entities/Item.cs:177 | a new item's volume is the product of the dimensions it was given |
| Entities.OrientedVolume | src/CromulentBisgetti.ContainerPacking/Entities/Item.cs:150-177 | when the packed extents are a permutation of the raw dimensions, their product is the volume |
| Entities.OrientedMultiset | src/CromulentBisgetti.ContainerPacking/Entities/Item.cs:150-168 | packed extents that are a permutation of the raw dimensions have the same multiset of values as the raw dimensions |
| StableSort.Insert | src/CromulentBisgetti.ContainerPacking/Algorithms/AK_PACK.cs:28 | insertion adds exactly the new record: the result is one longer and its multiset is the input's plus that record |
| StableSort.InsertSorted | src/CromulentBisgetti.ContainerPacking/Algorithms/AK_PACK.cs:28 | inserting into a sequence sorted by the key keeps it sorted |
| StableSort.SortBy | src/CromulentBisgetti.ContainerPacking/Algorithms/AK_PACK.cs:28 | the sort returns a permutation of its input (same length, same multiset) that is sorted by the key |
| StableSort.SortIsStable | src/CromulentBisgetti.ContainerPacking/Algorithms/EB_AFIT.cs:338 | LINQ's ordering is stable: for every key value, the records with that key keep their input order |
| AkPack.SetOrientation | src/CromulentBisgetti.ContainerPacking/Algorithms/AK_PACK.cs:212-229 | each packed extent is the raw dimension that the orientation's letter names; the result is a permutation of the raw dimensions; no other field changes |
| AkPack.OrientationsDistinct | src/CromulentBisgetti.ContainerPacking/Algorithms/AK_PACK.cs:55-63 | the six orientations name six different axis assignments |
| AkPack.OrientationsCoverPermutations | src/CromulentBisgetti.ContainerPacking/Algorithms/AK_PACK.cs:90-97 | every permutation of an item's raw dimensions is produced by one of the six orientations the search tries |
| AkPack.SeparatedSymmetric | src/CromulentBisgetti.ContainerPacking/Algorithms/AK_PACK.cs:154-161 | the six-face separation test gives the same answer with the two boxes swapped |
| AkPack.SeparatedIffDisjoint | src/CromulentBisgetti.ContainerPacking/Algorithms/AK_PACK.cs:150-161 | for boxes of positive extent, the separation test holds exactly when no point lies strictly inside both boxes, so touching boxes count as separated |
| AkPack.CeilBelow | src/CromulentBisgetti.ContainerPacking/Algorithms/AK_PACK.cs:205 | the modelled ceiling is the least integer not below x: n < x exactly when n < Ceil(x) |
| AkPack.ScanFromIsFirst | src/CromulentBisgetti.ContainerPacking/Algorithms/AK_PACK.cs:133-189 | the reference scan returns a feasible integral position at or after its start, and every position before it in height-width-length order is infeasible; it returns none only when no position from the start on is feasible |
| AkPack.PlaceIsFirstFit | src/CromulentBisgetti.ContainerPacking/Algorithms/AK_PACK.cs:131-190 | placing an item changes only its coordinates and packed flag; a packed result sits at the first feasible position in scan order; an unpacked result is the item unchanged, and then no scanned position is feasible |
| AkPack.PlaceIsSound | src/CromulentBisgetti.ContainerPacking/Algorithms/AK_PACK.cs:142-179 | a placed item lies inside the container and is separated from every packed item already placed |
| AkPack.ScanSkips | src/CromulentBisgetti.ContainerPacking/Algorithms/AK_PACK.cs:165-167 | jumping placeLength past an obstacle's far face skips only infeasible positions, so the jump never misses a fit |
| AkPack.PlaceItemInContainer | src/CromulentBisgetti.ContainerPacking/Algorithms/AK_PACK.cs:131-190 | the three nested loops with the obstacle jump return exactly the first-fit placement `Place` |
| AkPack.FillRankRange | src/CromulentBisgetti.ContainerPacking/Algorithms/AK_PACK.cs:198-207 | when the packed volume fits the container, the rank is 100..200 for a branch that packs everything and 0..100 for any other |
| AkPack.FillRankEmptyContainer | src/CromulentBisgetti.ContainerPacking/Algorithms/AK_PACK.cs:201 | a container of no volume ranks every branch 0 |
| AkPack.FirstMax | src/CromulentBisgetti.ContainerPacking/Algorithms/AK_PACK.cs:104-112 | the branch kept has the highest rank, and every branch before it ranks strictly lower (the first of the best wins) |
| AkPack.FirstMaxAppend | src/CromulentBisgetti.ContainerPacking/Algorithms/AK_PACK.cs:106-111 | one more branch replaces the kept one only when it ranks strictly higher |
| AkPack.BestAfterAppend | src/CromulentBisgetti.ContainerPacking/Algorithms/AK_PACK.cs:104-112 | both update tests of the orientation loop keep the first branch of highest rank |
| AkPack.TryOrientations | src/CromulentBisgetti.ContainerPacking/Algorithms/AK_PACK.cs:87-113 | the orientation loop returns the first of the six branches with the highest fill rank |
| AkPack.FillContainerItemFirst | src/CromulentBisgetti.ContainerPacking/Algorithms/AK_PACK.cs:74-121 | the recursive method computes exactly the search function `Fill` |
| AkPack.FillShape | src/CromulentBisgetti.ContainerPacking/Algorithms/AK_PACK.cs:74-121 | the search keeps every unit: the result is the packed list, then the item to pack, then one record for each unit still to pack, each the same unit (id, dimensions, quantity) |
| AkPack.FillConsistent | src/CromulentBisgetti.ContainerPacking/Algorithms/AK_PACK.cs:74-121 | starting from packed items that are inside the container, pairwise separated and oriented, the search ends in such a packing |
| AkPack.FillKeepsBestBranch | src/CromulentBisgetti.ContainerPacking/Algorithms/AK_PACK.cs:84-116 | with units left, the search returns one of the six orientation branches; no branch ranks higher, and every earlier branch ranks strictly lower |
| AkPack.UnitsCount | src/CromulentBisgetti.ContainerPacking/Algorithms/AK_PACK.cs:28-30 | the number of units is the sum of the positive quantities |
| AkPack.UnitsAreFresh | src/CromulentBisgetti.ContainerPacking/Algorithms/AK_PACK.cs:28-30 | every unit is a new item of quantity 1 with the id and dimensions of a requested item of positive quantity |
| AkPack.UnitsLargestFirst | src/CromulentBisgetti.ContainerPacking/Algorithms/AK_PACK.cs:28 | the units come in order of non-increasing volume |
| AkPack.UnitsStable | src/CromulentBisgetti.ContainerPacking/Algorithms/AK_PACK.cs:28 | units of equal volume keep the order of the requested items they came from |
| AkPack.SplitIntoUnits | src/CromulentBisgetti.ContainerPacking/Algorithms/AK_PACK.cs:28-30 | the splitting loops produce exactly one unit per requested copy, item by item |
| AkPack.Run | src/CromulentBisgetti.ContainerPacking/Algorithms/AK_PACK.cs:21-47 | Run returns exactly `Pack`: the search over the sorted units, split into packed and unpacked |
| AkPack.WhereSplits | src/CromulentBisgetti.ContainerPacking/Algorithms/AK_PACK.cs:42-43 | splitting by the packed flag loses and adds no unit |
| AkPack.WhereNoneUnpacked | src/CromulentBisgetti.ContainerPacking/Algorithms/AK_PACK.cs:41-43 | `All(IsPacked)` holds exactly when the unpacked list is empty |
| AkPack.SplitReport | src/CromulentBisgetti.ContainerPacking/Algorithms/AK_PACK.cs:41-43 | the packed part of a consistent packing is consistent; the pack is complete exactly when nothing is unpacked; the two parts hold every record |
| AkPack.ReportedUnits | src/CromulentBisgetti.ContainerPacking/Algorithms/AK_PACK.cs:32-35 | the search over the units returns each requested copy once, as a record of quantity 1 |
| AkPack.PackReport | src/CromulentBisgetti.ContainerPacking/Algorithms/AK_PACK.cs:21-47 | AK_PACK's result: named "AK_PACK"; packed plus unpacked units are the requested copies, each once, with quantity 1; packed units are marked packed and unpacked ones not; the pack is complete exactly when nothing is unpacked; packed units lie in the container without overlapping |
| Skyline.InitialWellFormed | src/CromulentBisgetti.ContainerPacking/Algorithms/EB_AFIT.cs:834-835 | a new layer's edge, one gap of depth 0 across the layer width, is well formed |
| Skyline.FirstMinZIsLeast | src/CromulentBisgetti.ContainerPacking/Algorithms/EB_AFIT.cs:530-545 | the gap FindSmallestZ picks has the least depth, and every gap before it is strictly deeper |
| Skyline.FirstMinZAppend | src/CromulentBisgetti.ContainerPacking/Algorithms/EB_AFIT.cs:535-543 | a later gap replaces the shallowest so far only when strictly shallower |
| Skyline.EvenShrinks | src/CromulentBisgetti.ContainerPacking/Algorithms/EB_AFIT.cs:254-299 | evening out a gap removes two gaps when both neighbours have the same depth, and one gap otherwise |
| Skyline.EvenWellFormed | src/CromulentBisgetti.ContainerPacking/Algorithms/EB_AFIT.cs:254-299 | evening out keeps the edge well formed: gap ends strictly increasing, depths non-negative, the last end at the layer width |
| Skyline.EvenSteps | src/CromulentBisgetti.ContainerPacking/Algorithms/EB_AFIT.cs:254-299 | the evening-out function is the sequence of link changes CheckFound makes, case by case |
| Skyline.PlaceGrowsByAtMostOne | src/CromulentBisgetti.ContainerPacking/Algorithms/EB_AFIT.cs:841-1120 | a placement adds at most one gap, and the edge is never empty |
| Skyline.PlaceCoordinateInGap | src/CromulentBisgetti.ContainerPacking/Algorithms/EB_AFIT.cs:841-1120 | outside the two shifted 4A branches, the box's x coordinate is the gap's left end or its right end minus the box width |
| Skyline.ShiftedCoordinateOffByWidth | src/CromulentBisgetti.ContainerPacking/Algorithms/EB_AFIT.cs:1024-1049 | in the shifted 4A branches the coordinate is the right end minus twice the box width, or the left end plus the box width |
| Skyline.ShiftedCoordinateLeavesGap | src/CromulentBisgetti.ContainerPacking/Algorithms/EB_AFIT.cs:1026-1030 | on a concrete well-formed edge, the 4A coordinate lands at 0, outside the gap that starts at 2 |
| Skyline.PlaceWellFormed | src/CromulentBisgetti.ContainerPacking/Algorithms/EB_AFIT.cs:841-1120 | every situation, for a box of positive depth no wider than its gap, keeps the edge well formed |
| Skyline.Situation1Steps | src/CromulentBisgetti.ContainerPacking/Algorithms/EB_AFIT.cs:841-873 | situation 1 as a function equals the source's link changes: raise the single gap, or split it at the box width |
| Skyline.Situation2Steps | src/CromulentBisgetti.ContainerPacking/Algorithms/EB_AFIT.cs:874-932 | situation 2 as a function equals the source's link changes, branch by branch |
| Skyline.Situation3Steps | src/CromulentBisgetti.ContainerPacking/Algorithms/EB_AFIT.cs:933-981 | situation 3 as a function equals the source's link changes, branch by branch |
| Skyline.Situation4ASteps | src/CromulentBisgetti.ContainerPacking/Algorithms/EB_AFIT.cs:982-1065 | sub-situation 4A as a function equals the source's link changes, including the shifted coordinate |
| Skyline.Situation4BSteps | src/CromulentBisgetti.ContainerPacking/Algorithms/EB_AFIT.cs:1066-1120 | sub-situation 4B as a function equals the source's link changes, branch by branch |
| ScrapPads.Distinct | src/CromulentBisgetti.ContainerPacking/Algorithms/EB_AFIT.cs:1339-1375 | the list the pre/post links describe never visits a node twice |
| ScrapPads.SkyOfAt | src/CromulentBisgetti.ContainerPacking/Algorithms/EB_AFIT.cs:1347-1355 | gap i of the edge is the CumX/CumZ of the list's i-th node |
| ScrapPads.Neighbours | src/CromulentBisgetti.ContainerPacking/Algorithms/EB_AFIT.cs:1363-1371 | a node's Pre is null exactly at the head and its Post exactly at the end; otherwise they name the nodes before and after it |
| ScrapPads.WithGapEffect | src/CromulentBisgetti.ContainerPacking/Algorithms/EB_AFIT.cs:1347-1355 | writing a node's CumX and CumZ changes that gap of the edge and no other, and keeps the links |
| ScrapPads.InsertedEffect | src/CromulentBisgetti.ContainerPacking/Algorithms/EB_AFIT.cs:1033-1039 | linking a new pad after a node keeps the list linked and inserts its gap right after that node's gap |
| ScrapPads.UnlinkedEffect | src/CromulentBisgetti.ContainerPacking/Algorithms/EB_AFIT.cs:289-290 | linking a node's neighbours to each other keeps the list linked and removes exactly that node's gap |
| ScrapPads.RoomyEdge | src/CromulentBisgetti.ContainerPacking/Algorithms/EB_AFIT.cs:841-847 | a gap that a box of positive width fits across lies on a well-formed edge, so the placement lemmas apply to it |
| AfitSpec.CopiesOf | src/CromulentBisgetti.ContainerPacking/Algorithms/EB_AFIT.cs:598-602 | an item gives Quantity new units, each with its id and dimensions and carrying the item's Quantity |
| AfitSpec.UnitsFor | src/CromulentBisgetti.ContainerPacking/Algorithms/EB_AFIT.cs:596-605 | the number of units Initialize lays out is the sum of the quantities |
| AfitSpec.UnitsArePositive | src/CromulentBisgetti.ContainerPacking/Algorithms/EB_AFIT.cs:596-605 | every laid-out unit has quantity at least 1, positive dimensions, and is not packed |
| AfitSpec.UnitsAreGrouped | src/CromulentBisgetti.ContainerPacking/Algorithms/EB_AFIT.cs:596-605 | the units fall into consecutive groups, one per item, each as long as the Quantity its units carry; this is what FindBox's stride `y + Quantity` (line 425) relies on |
| AfitSpec.UnitsForSnoc | src/CromulentBisgetti.ContainerPacking/Algorithms/EB_AFIT.cs:596-605 | one more item appends its copies to the units and its quantity to the count |
| AfitSpec.UnitsLaidOut | src/CromulentBisgetti.ContainerPacking/Algorithms/EB_AFIT.cs:592-605 | the units between the two sentinels are ready to pack: positive, grouped and none packed |
| AfitSpec.BoxOrientation | src/CromulentBisgetti.ContainerPacking/Algorithms/EB_AFIT.cs:436-444 | each of FindBox's six AnalyzeBox calls passes a permutation of the unit's dimensions |
| AfitSpec.OrientationsCoverPermutations | src/CromulentBisgetti.ContainerPacking/Algorithms/EB_AFIT.cs:436-444 | the six calls together try every permutation of the dimensions |
| AfitSpec.CubeHasOneOrientation | src/CromulentBisgetti.ContainerPacking/Algorithms/EB_AFIT.cs:438 | for a cube every orientation is the first one, so skipping the other five loses nothing |
| AfitSpec.LexLessIsStrictTotal | src/CromulentBisgetti.ContainerPacking/Algorithms/EB_AFIT.cs:144-215 | AnalyzeBox's comparison (height gap, then width gap, then depth gap) is a strict total order |
| AfitSpec.Improve | src/CromulentBisgetti.ContainerPacking/Algorithms/EB_AFIT.cs:144-215 | a fit is replaced only by a strictly smaller key, so the kept key never rises and is at most the candidate's |
| AfitSpec.AnalyzeStep | src/CromulentBisgetti.ContainerPacking/Algorithms/EB_AFIT.cs:144-215 | one AnalyzeBox call keeps both fits well formed, never raises their keys, and leaves no tried orientation that fits with a smaller key; each fit is kept, or taken by the unit weighed on a strictly smaller key |
| AfitSpec.FirstOfKeyStep | src/CromulentBisgetti.ContainerPacking/Algorithms/EB_AFIT.cs:148-212 | weighing the next unit in index order keeps ties with the earliest unit: a unit is taken only on a key strictly below every earlier unpacked unit's fitting keys |
| AfitSpec.FitOkFitsGap | src/CromulentBisgetti.ContainerPacking/Algorithms/EB_AFIT.cs:413-446 | a fit FindBox returns is none, or an unpacked unit turned to positive sides no wider than the gap, within the layer for the best fit and taller than it for the other |
| AfitSpec.MinDiff | src/CromulentBisgetti.ContainerPacking/Algorithms/EB_AFIT.cs:499-509 | the difference added for a unit is the least of the distances from exdim to its three dimensions |
| AfitSpec.EvalUsesDimensions | src/CromulentBisgetti.ContainerPacking/Algorithms/EB_AFIT.cs:495-513 | a layer's evaluation depends on the units' dimensions only, and on their packing only when FindLayer skips packed units |
| AfitSpec.PickIsMinimal | src/CromulentBisgetti.ContainerPacking/Algorithms/EB_AFIT.cs:464-522 | no eligible choice (unpacked unit, exdim within the thickness, footprint on the floor) scores below FindLayer's pick |
| AfitSpec.PickIsFirstBest | src/CromulentBisgetti.ContainerPacking/Algorithms/EB_AFIT.cs:464-522 | FindLayer's pick is none, or an eligible choice with its evaluation, and every eligible choice before it scores strictly more |
| AfitSpec.PickBounds | src/CromulentBisgetti.ContainerPacking/Algorithms/EB_AFIT.cs:461-522 | the picked thickness is 0 or a dimension of an unpacked unit, and no more than the thickness allowed |
| AfitSpec.CandidatesDistinct | src/CromulentBisgetti.ContainerPacking/Algorithms/EB_AFIT.cs:645-712 | ListCanditLayers never lists the same thickness twice |
| AfitSpec.CandidatesFit | src/CromulentBisgetti.ContainerPacking/Algorithms/EB_AFIT.cs:645-712 | every listed entry is the thickness and evaluation of a choice whose exdim fits py and whose footprint fits the floor |
| AfitSpec.CandidatesComplete | src/CromulentBisgetti.ContainerPacking/Algorithms/EB_AFIT.cs:645-712 | every choice that fits has its thickness listed |
| AfitSpec.CandidateBounds | src/CromulentBisgetti.ContainerPacking/Algorithms/EB_AFIT.cs:645-712 | listed thicknesses are unit dimensions, and a non-empty list needs a floor and a height that are positive |
| AfitSpec.CandidatesUseDimensions | src/CromulentBisgetti.ContainerPacking/Algorithms/EB_AFIT.cs:645-712 | the list depends on the units' dimensions only, never on which units are packed |
| AfitSpec.PadSortsFirst | src/CromulentBisgetti.ContainerPacking/Algorithms/EB_AFIT.cs:337-339 | a list whose entry 0 is the pad and whose other entries have non-negative evaluations still has the pad at index 0 after sorting by evaluation |
| AfitSpec.FreshListStartsWithPad | src/CromulentBisgetti.ContainerPacking/Algorithms/EB_AFIT.cs:1192-1195 | the replay's fresh list, the pad followed by the candidates (whose evaluations are non-negative), has the pad at index 0 once sorted |
| AfitSpec.ReusedListStartsAtZero | src/CromulentBisgetti.ContainerPacking/Algorithms/EB_AFIT.cs:337-339 | a later variant's list (the earlier list, a second pad, the candidates written over entries 1..) sorts with the pad at index 0 and a pad or blank of thickness 0 at index 1, when the candidates have positive evaluations |
| AfitSpec.RecordedEntries | src/CromulentBisgetti.ContainerPacking/Algorithms/EB_AFIT.cs:705-709 | after ListCanditLayers the candidates sit at entries 1, 2, ... in order and entry 0 keeps its old value |
| AfitSpec.PackedStayTransitive | src/CromulentBisgetti.ContainerPacking/Algorithms/EB_AFIT.cs:360-388 | packed records that stay over two steps stay over both, so the layer loops chain the property |
| AfitSpec.TotalVolumePositive | src/CromulentBisgetti.ContainerPacking/Algorithms/EB_AFIT.cs:610-615 | the total item volume is non-negative, and 0 exactly when there are no units |
| AfitSpec.MarkPacked | src/CromulentBisgetti.ContainerPacking/Algorithms/EB_AFIT.cs:1280-1285 | packing one more unit lowers the unpacked count by one and adds the unit's volume to the packed volume |
| AfitSpec.PackedBelowTotal | src/CromulentBisgetti.ContainerPacking/Algorithms/EB_AFIT.cs:1291 | the packed volume never exceeds the total item volume |
| AfitSpec.FullVolumeMeansAllPacked | src/CromulentBisgetti.ContainerPacking/Algorithms/EB_AFIT.cs:1291-1296 | when the packed volume equals the total item volume, every unit is packed, so "hundred percent packed" means it |
| AfitSpec.VariantDims | src/CromulentBisgetti.ContainerPacking/Algorithms/EB_AFIT.cs:310-336 | each variant's (px, py, pz) is a permutation of the container's length, height and width |
| AfitSpec.VariantVolume | src/CromulentBisgetti.ContainerPacking/Algorithms/EB_AFIT.cs:310-336 | every variant has the container's volume |
| AfitSpec.ContainerHasVolume | src/CromulentBisgetti.ContainerPacking/Algorithms/EB_AFIT.cs:400 | when a variant lists a thickness, the container volume is positive, so the percentage at line 400 never divides by zero |
| AfitSpec.Reoriented | src/CromulentBisgetti.ContainerPacking/Algorithms/EB_AFIT.cs:739-815 | OutputBoxList keeps the unit's id, packing, dimensions and quantity, and permutes its coordinates and its packed extents back to the container's axes |
| AfitSpec.ReorientedStaysOriented | src/CromulentBisgetti.ContainerPacking/Algorithms/EB_AFIT.cs:811-813 | a unit packed in an orientation of its dimensions still is after OutputBoxList's reordering (PackHeight takes by, PackWidth takes bz) |
| AfitSpec.Keep | src/CromulentBisgetti.ContainerPacking/Algorithms/EB_AFIT.cs:391-397 | an iteration becomes the best only when it packed strictly more volume; the best volume never falls |
| AfitSpec.BestIsMaximal | src/CromulentBisgetti.ContainerPacking/Algorithms/EB_AFIT.cs:391-397 | the best volume is at least that of every iteration run |
| AfitSpec.BestIsFirst | src/CromulentBisgetti.ContainerPacking/Algorithms/EB_AFIT.cs:391-397 | the best is the starting one or the first iteration reaching the best volume; no earlier iteration matched it |
| AfitSpec.BestTrialAppend | src/CromulentBisgetti.ContainerPacking/Algorithms/EB_AFIT.cs:306-407 | the best over the iterations of several variants is the best of the later ones started from the best of the earlier ones |
| AfitSpec.UnpackedAll | src/CromulentBisgetti.ContainerPacking/Algorithms/EB_AFIT.cs:355-358 | unpacking every unit keeps the units and leaves nothing packed, no packed volume and an empty order |
| AfitSpec.UnpackedUnitsCount | src/CromulentBisgetti.ContainerPacking/Algorithms/EB_AFIT.cs:36-44 | the unpacked list has one record per unpacked unit and holds every unpacked unit |
| AfitSpec.QuantityOneKeepsOrder | src/CromulentBisgetti.ContainerPacking/Algorithms/EB_AFIT.cs:38 | setting every Quantity to 1 changes neither which units are packed nor the packing order |
| Afit.EbAfit.Initialize | src/CromulentBisgetti.ContainerPacking/Algorithms/EB_AFIT.cs:583-625 | a fresh packer holds one unit per requested copy between two sentinels, the unit count, the total item volume, a single scrap pad, nothing packed, no best and no iteration |
| Afit.EbAfit.Load | src/CromulentBisgetti.ContainerPacking/Algorithms/EB_AFIT.cs:592-615 | the unit list is laid out with none packed, and the total item volume is the sum of the unit volumes |
| Afit.EbAfit.Clear | src/CromulentBisgetti.ContainerPacking/Algorithms/EB_AFIT.cs:617-624 | a single scrap pad, no best volume, not replaying, not hundred percent packed, no iteration done |
| Afit.EbAfit.LayOut | src/CromulentBisgetti.ContainerPacking/Algorithms/EB_AFIT.cs:592-605 | the loop over the items lays out a sentinel, the copies of each item in input order, and a sentinel |
| Afit.EbAfit.SumVolumes | src/CromulentBisgetti.ContainerPacking/Algorithms/EB_AFIT.cs:610-615 | the loop sums the volumes of units 1..itemsToPackCount |
| Afit.EbAfit.SetGap | src/CromulentBisgetti.ContainerPacking/Algorithms/EB_AFIT.cs:1347-1355 | writing a pad's CumX and CumZ changes exactly its gap of the edge |
| Afit.EbAfit.Unlink | src/CromulentBisgetti.ContainerPacking/Algorithms/EB_AFIT.cs:289-290 | unlinking a node removes its gap from the edge |
| Afit.EbAfit.InsertAfter | src/CromulentBisgetti.ContainerPacking/Algorithms/EB_AFIT.cs:1033-1039 | a new pad linked after a node puts its gap right after that node's gap |
| Afit.EbAfit.MergeThree | src/CromulentBisgetti.ContainerPacking/Algorithms/EB_AFIT.cs:1005-1017 | a gap and its right neighbour are unlinked, and the left neighbour stretches to the right neighbour's end |
| Afit.EbAfit.SplitGap | src/CromulentBisgetti.ContainerPacking/Algorithms/EB_AFIT.cs:862-869 | a gap is split in two: a new pad after it takes its old end, and it takes the new values |
| Afit.EbAfit.MergeTwo | src/CromulentBisgetti.ContainerPacking/Algorithms/EB_AFIT.cs:952-955 | a gap is unlinked and its left neighbour takes the new values |
| Afit.EbAfit.FindSmallestZ | src/CromulentBisgetti.ContainerPacking/Algorithms/EB_AFIT.cs:530-545 | smallestZ is the first node, from the head, of least depth |
| Afit.EbAfit.AnalyzeBox | src/CromulentBisgetti.ContainerPacking/Algorithms/EB_AFIT.cs:144-215 | an orientation that fits the space updates the in-layer fit when no taller than the layer, and the overflow fit otherwise, each only on a strictly smaller key; an orientation that does not fit changes nothing |
| Afit.EbAfit.AnalyzeUnit | src/CromulentBisgetti.ContainerPacking/Algorithms/EB_AFIT.cs:436-444 | after a unit's orientations, both fits are well formed, their keys never rose, no orientation of the unit that fits has a smaller key, and each fit is kept or taken by that unit on a strictly smaller key |
| Afit.EbAfit.FirstUnpacked | src/CromulentBisgetti.ContainerPacking/Algorithms/EB_AFIT.cs:427-432 | the inner loop stops at once for a group of one; otherwise it stops at the first unpacked record, past packed ones only, even beyond the group |
| Afit.EbAfit.ScanGroup | src/CromulentBisgetti.ContainerPacking/Algorithms/EB_AFIT.cs:425-445 | one group of the scan keeps FindBox's invariant: both fits are well formed, ahead of every unpacked unit so far, and strictly ahead of every unpacked unit before their own |
| Afit.EbAfit.FindBox | src/CromulentBisgetti.ContainerPacking/Algorithms/EB_AFIT.cs:413-446 | both fits are none or an unpacked unit in a fitting orientation, and no orientation of any unpacked unit that fits the slot has a smaller key; a tie goes to the earliest unit in scan order, since every unpacked unit before a fit's own has only strictly larger keys in that slot |
| Afit.EbAfit.EvenOut | src/CromulentBisgetti.ContainerPacking/Algorithms/EB_AFIT.cs:254-299 | CheckFound's link changes even out the gap exactly as `Skyline.Even` does |
| Afit.EbAfit.Decide | src/CromulentBisgetti.ContainerPacking/Algorithms/EB_AFIT.cs:220-301 | CheckFound's rule (`AfitSpec.CheckFoundRule`): the in-layer fit is taken whenever there is one; otherwise the overflow fit when there is one and the layer was already raised or the edge is a single gap; otherwise the layer is done on a single gap and the gap is evened out on any other edge. The layer is done exactly when neither fit exists and the edge is a single gap. The box taken is `AfitSpec.TakenFit`'s unit and extents, an overflow box raises the layer to its height, and the edge changes only when evened, to `Skyline.Even` of the old edge |
| Afit.EbAfit.CheckFound | src/CromulentBisgetti.ContainerPacking/Algorithms/EB_AFIT.cs:220-301 | CheckFound as PackGap uses it: one of the three outcomes, each advancing the pass or choosing a box, with the state consistent |
| Afit.EbAfit.TakeBestFit | src/CromulentBisgetti.ContainerPacking/Algorithms/EB_AFIT.cs:224-230 | the box chosen is the in-layer fit's unit with its extents, and the state is kept |
| Afit.EbAfit.TakeOverflowFit | src/CromulentBisgetti.ContainerPacking/Algorithms/EB_AFIT.cs:233-247 | the box chosen is the overflow fit's unit with its extents; the layer thickness becomes the box height and layerinlayer grows by the rise |
| Afit.EbAfit.RaiseLayer | src/CromulentBisgetti.ContainerPacking/Algorithms/EB_AFIT.cs:235-246 | the layer-in-layer height grows by the rise; prelayer and lilz are recorded at the first rise only |
| Afit.EbAfit.FinishLayer | src/CromulentBisgetti.ContainerPacking/Algorithms/EB_AFIT.cs:250-253 | with nothing fitting the single gap, layerDone is set, the gap is not evened, and the state is kept |
| Afit.EbAfit.EvenGap | src/CromulentBisgetti.ContainerPacking/Algorithms/EB_AFIT.cs:254-299 | with nothing fitting a gap among several, the edge becomes `Skyline.Even` of the old edge at that gap and stays consistent |
| Afit.EbAfit.Situation1Edge | src/CromulentBisgetti.ContainerPacking/Algorithms/EB_AFIT.cs:856-871 | situation 1's link changes and coordinate are `Skyline.Situation1` |
| Afit.EbAfit.Situation2Edge | src/CromulentBisgetti.ContainerPacking/Algorithms/EB_AFIT.cs:889-929 | situation 2's link changes and coordinate are `Skyline.Situation2` |
| Afit.EbAfit.Situation3Edge | src/CromulentBisgetti.ContainerPacking/Algorithms/EB_AFIT.cs:950-978 | situation 3's link changes and coordinate are `Skyline.Situation3` |
| Afit.EbAfit.Situation4AEdge | src/CromulentBisgetti.ContainerPacking/Algorithms/EB_AFIT.cs:1001-1062 | sub-situation 4A's link changes and coordinate are `Skyline.Situation4A` |
| Afit.EbAfit.Situation4BEdge | src/CromulentBisgetti.ContainerPacking/Algorithms/EB_AFIT.cs:1083-1117 | sub-situation 4B's link changes and coordinate are `Skyline.Situation4B` |
| Afit.EbAfit.PlaceBox | src/CromulentBisgetti.ContainerPacking/Algorithms/EB_AFIT.cs:841-1120 | the chosen box is placed by the situation of its gap: the edge becomes `Skyline.Place` of the old one and stays well formed, and the unit gets its coordinates |
| Afit.EbAfit.OutputBoxList | src/CromulentBisgetti.ContainerPacking/Algorithms/EB_AFIT.cs:718-815 | during the replay the placed unit is moved to the container's axes and appended to the packing order |
| Afit.EbAfit.VolumeCheck | src/CromulentBisgetti.ContainerPacking/Algorithms/EB_AFIT.cs:1278-1297 | the unit is marked packed with its packed extents; the packed volume and count grow by it; during the replay it is output; otherwise packing stops as hundred percent packed exactly when the packed volume reaches the container or total item volume |
| Afit.EbAfit.MarkChosen | src/CromulentBisgetti.ContainerPacking/Algorithms/EB_AFIT.cs:1280-1285 | the chosen unit's record becomes `AfitSpec.Marked` of it (packed, with the chosen extents, turned to the container's axes during the replay), no other record changes, the packed volume grows by its volume and the count by one |
| Afit.EbAfit.PlaceUnit | src/CromulentBisgetti.ContainerPacking/Algorithms/EB_AFIT.cs:841-1120 | PlaceBox for the chosen box: the edge becomes `Skyline.Place` of the old edge, and only the chosen unit's record changes, taking the placement's coordinates |
| Afit.EbAfit.PlaceChosen | src/CromulentBisgetti.ContainerPacking/Algorithms/EB_AFIT.cs:841-1119 | the chosen box is placed and marked: one unit more is packed, the state is kept, and no packed record changes |
| Afit.EbAfit.EvaluateThickness | src/CromulentBisgetti.ContainerPacking/Algorithms/EB_AFIT.cs:687-703 | the loop computes the evaluation `EvalUpTo` of a thickness over the other units |
| Afit.EbAfit.AlreadyListed | src/CromulentBisgetti.ContainerPacking/Algorithms/EB_AFIT.cs:672-683 | `same` is set exactly when the thickness is already among entries 1..layerListLen |
| Afit.EbAfit.ListCanditLayers | src/CromulentBisgetti.ContainerPacking/Algorithms/EB_AFIT.cs:631-712 | the list becomes its old entry 0 followed by the candidates `CandidatesUpTo` of all units' three choices |
| Afit.EbAfit.FindLayer | src/CromulentBisgetti.ContainerPacking/Algorithms/EB_AFIT.cs:451-525 | the thickness is the pick `PickUpTo` over all choices, and packing goes on only with a non-zero thickness within the height left |
| Afit.EbAfit.FindGap | src/CromulentBisgetti.ContainerPacking/Algorithms/EB_AFIT.cs:839-847 | smallestZ names gap k of the edge, and both fits FindBox offers for it are none or fit its width |
| Afit.EbAfit.GapSpace | src/CromulentBisgetti.ContainerPacking/Algorithms/EB_AFIT.cs:845-1072 | lenx is the gap's width, lpz the depth left in front of it, lenz the step to its deeper neighbour, per situation |
| Afit.EbAfit.PackGap | src/CromulentBisgetti.ContainerPacking/Algorithms/EB_AFIT.cs:839-1120 | one pass of PackLayer's loop packs a box, evens out a gap or ends the layer; the packing state stays consistent and no packed record changes |
| Afit.EbAfit.StartEdge | src/CromulentBisgetti.ContainerPacking/Algorithms/EB_AFIT.cs:834-835 | a layer's edge starts as one gap of depth 0 across px |
| Afit.EbAfit.PackLayer | src/CromulentBisgetti.ContainerPacking/Algorithms/EB_AFIT.cs:822-1122 | a layer keeps units, totals and edge consistent, the thickness only rises, no packed record changes, and a layer of thickness 0 stops packing |
| Afit.EbAfit.LayerPass | src/CromulentBisgetti.ContainerPacking/Algorithms/EB_AFIT.cs:360-387 | one pass of the layer loop keeps the state consistent; if packing goes on, the next thickness is at least the smallest unit side and fits the height left, and the height left shrank by at least the thickness packed; no packed record changes |
| Afit.EbAfit.StackLayer | src/CromulentBisgetti.ContainerPacking/Algorithms/EB_AFIT.cs:362-367 | the layer is packed and stacked: packedy grows by its final thickness, which is never below the starting one, and no packed record changes |
| Afit.EbAfit.LayerInLayer | src/CromulentBisgetti.ContainerPacking/Algorithms/EB_AFIT.cs:370-385 | the layer in layer is packed, the saved heights and depth are restored, and no packed record changes |
| Afit.EbAfit.EnterRise | src/CromulentBisgetti.ContainerPacking/Algorithms/EB_AFIT.cs:372-378 | the layer in layer is framed by the rise, lilz and layerinlayer |
| Afit.EbAfit.NextLayer | src/CromulentBisgetti.ContainerPacking/Algorithms/EB_AFIT.cs:387 | FindLayer on the height left keeps packing only with a thickness of at least the smallest unit side and within that height |
| Afit.EbAfit.PackLayers | src/CromulentBisgetti.ContainerPacking/Algorithms/EB_AFIT.cs:360-388 | the layer loop ends, with packing stopped, the state consistent and no packed record changed |
| Afit.EbAfit.UnpackAll | src/CromulentBisgetti.ContainerPacking/Algorithms/EB_AFIT.cs:355-358 | the loop marks units 1..itemsToPackCount unpacked and changes nothing else |
| Afit.EbAfit.StartVariant | src/CromulentBisgetti.ContainerPacking/Algorithms/EB_AFIT.cs:310-339 | the variant sets (px, py, pz) to its orientation of the container; the list becomes the old list plus a pad, with the variant's candidates recorded over entries 1.. (`AfitSpec.Recorded`), sorted by evaluation |
| Afit.EbAfit.StartIteration | src/CromulentBisgetti.ContainerPacking/Algorithms/EB_AFIT.cs:342-358 | an iteration starts from the listed thickness with nothing packed and the whole height and depth left, and is counted |
| Afit.EbAfit.Restart | src/CromulentBisgetti.ContainerPacking/Algorithms/EB_AFIT.cs:345-352 | the totals, heights and thickness are reset for an iteration |
| Afit.EbAfit.PackFrom | src/CromulentBisgetti.ContainerPacking/Algorithms/EB_AFIT.cs:342-388 | an iteration packs from its entry until packing stops, and is counted once |
| Afit.EbAfit.TryIteration | src/CromulentBisgetti.ContainerPacking/Algorithms/EB_AFIT.cs:342-397 | after an iteration the best is `Keep` of the old best and this iteration's result |
| Afit.EbAfit.Sweep | src/CromulentBisgetti.ContainerPacking/Algorithms/EB_AFIT.cs:340-399 | a variant runs entries 1, 2, ... of its list in order and stops after the first hundred-percent iteration; the best is the best over those runs |
| Afit.EbAfit.TryVariant | src/CromulentBisgetti.ContainerPacking/Algorithms/EB_AFIT.cs:310-399 | one variant: its list is built and swept, and the best is the best over its iterations |
| Afit.EbAfit.SweptSnoc | src/CromulentBisgetti.ContainerPacking/Algorithms/EB_AFIT.cs:308 | a complete sweep of the next variant extends the complete sweeps before it |
| Afit.EbAfit.RanStopped | src/CromulentBisgetti.ContainerPacking/Algorithms/EB_AFIT.cs:403 | a sweep that packs a hundred percent ends the search |
| Afit.EbAfit.Search | src/CromulentBisgetti.ContainerPacking/Algorithms/EB_AFIT.cs:308-406 | the variants are swept in order 1..6 (only 1 for a cube) until one packs a hundred percent; the best is the best over all iterations run |
| Afit.EbAfit.ExecuteIterations | src/CromulentBisgetti.ContainerPacking/Algorithms/EB_AFIT.cs:306-407 | after the search the recorded best is the first iteration of largest packed volume over every iteration run |
| Afit.EbAfit.SetBest | src/CromulentBisgetti.ContainerPacking/Algorithms/EB_AFIT.cs:393-396 | the best variant, iteration, volume and count are recorded |
| Afit.EbAfit.TurnToBest | src/CromulentBisgetti.ContainerPacking/Algorithms/EB_AFIT.cs:1147-1175 | the container is turned to the best variant and replay mode begins |
| Afit.EbAfit.Divisible | src/CromulentBisgetti.ContainerPacking/Algorithms/EB_AFIT.cs:1176-1177 | the two percentages can be computed exactly when neither total volume is 0 |
| Afit.EbAfit.StartReplay | src/CromulentBisgetti.ContainerPacking/Algorithms/EB_AFIT.cs:1196-1206 | the replay starts from the thickness of the fresh list's entry at the best iteration's index, with every unit unpacked and the whole height and depth left |
| Afit.EbAfit.ReplayLayers | src/CromulentBisgetti.ContainerPacking/Algorithms/EB_AFIT.cs:1192-1199 | the rebuilt list has an entry at the best iteration's index |
| Afit.EbAfit.FreshLayers | src/CromulentBisgetti.ContainerPacking/Algorithms/EB_AFIT.cs:1192-1195 | the list is cleared, so it becomes exactly the pad and the candidates sorted by evaluation, with the pad at index 0 and layerListLen the number of candidates |
| Afit.EbAfit.Replay | src/CromulentBisgetti.ContainerPacking/Algorithms/EB_AFIT.cs:1194-1236 | the replay packs layers until packing stops, the state staying consistent |
| Afit.EbAfit.Report | src/CromulentBisgetti.ContainerPacking/Algorithms/EB_AFIT.cs:1143-1236 | Report gets past the percentages exactly when both total volumes are non-zero, and then leaves the replayed packing consistent |
| Afit.EbAfit.MarkUnits | src/CromulentBisgetti.ContainerPacking/Algorithms/EB_AFIT.cs:36-44 | Run's loop gives every unit quantity 1 and gathers the unpacked units in index order |
| Afit.EbAfit.Collect | src/CromulentBisgetti.ContainerPacking/Algorithms/EB_AFIT.cs:32-54 | the result is named "EB-AFIT", lists the units of the packing order as packed and the others as unpacked, each unit once, and is complete exactly when nothing is unpacked |
| Afit.EbAfit.Finish | src/CromulentBisgetti.ContainerPacking/Algorithms/EB_AFIT.cs:30-54 | Report then the result: it fails exactly on a zero total volume; otherwise every unit keeps its id and dimensions with quantity 1, the packed list is the packing order and the unpacked list the rest |
| Afit.Searched | src/CromulentBisgetti.ContainerPacking/Algorithms/EB_AFIT.cs:26-29 | after Initialize and ExecuteIterations the best is among the iterations, and the total item volume is 0 exactly when no copy was requested |
| Afit.Run | src/CromulentBisgetti.ContainerPacking/Algorithms/EB_AFIT.cs:24-56 | EB_AFIT fails exactly when no copy was requested or the container has no volume; otherwise each requested copy is reported exactly once with its id, dimensions and quantity 1, the packed units in placement order and the others in input order, and the pack is complete exactly when none is unpacked |

## Left out

- Console output is not modelled: `Print`, `GraphUnpackedOut` and the listing loops at EB_AFIT.cs:1240-1268. The percentages they print are kept only for the division by zero.
- The `quit` flag is never set, so it is left out (constant false).
- `AlgorithmID`, the `result` field of type `ContainerPackingResult`, and the `Container` class's id are left out. `Container` and `AlgorithmPackingResult` are reduced to the fields the algorithms use.
- Afit.Run: requires every quantity to be non-negative and every dimension positive. A negative Quantity makes Initialize's counter go down and breaks the 1-based layout. With a zero side the source still ends, since each round that goes on adds a non-zero pick to packedy (EB_AFIT.cs:367, 524). The model's proofs need positive sides for three reasons. A box of zero width breaks the edge invariant (gap ends strictly increasing) that the placement lemmas rely on. A negative side lets FindLayer go on with a negative thickness. The layer loop's termination is proved from the smallest unit side.
- Afit.Run: does not prove that the placed boxes are disjoint or inside the container. The 4A coordinate described above breaks this.
- Afit.EbAfit.Report: does not state that px, py and pz end as the best variant's dimensions. `Afit.EbAfit.TurnToBest` states it.
- Afit.EbAfit.ReplayLayers: states only that the best iteration's entry exists, not the rebuilt list's contents. `Afit.EbAfit.FreshLayers`, which it calls, states those.
- Afit.EbAfit.CheckFound: states only the three outcomes. `Afit.EbAfit.Decide`, which it calls, states CheckFound's rule; PackGap relies on this shorter contract so that its own proof stays small.
- Afit.EbAfit.FindGap: does not restate that gap k is the first gap of least depth. `Afit.EbAfit.FindSmallestZ`, which it calls first, states that smallestZ is that gap's node, and k is that gap's index.
- Afit.EbAfit.PlaceChosen: does not restate the new edge and unit record. `Afit.EbAfit.PlaceUnit` and `Afit.EbAfit.MarkChosen`, which it calls in turn, state them.
- Afit.EbAfit.PackGap: states the pass's outcome (a unit packed, a gap evened out or the layer done) and that no packed record changes; the totals follow the records through `Tally`. The new edge and record of each outcome are stated by Decide, PlaceUnit and MarkChosen, and are not composed into PackGap's own contract.
- Afit.EbAfit.PackLayer: states that no packed record changes and that the totals follow the records. No function computes which units a layer packs, so that is not stated.
- Afit.EbAfit.StackLayer: as PackLayer, which it calls: which units the layer packs is not stated.
- Afit.EbAfit.LayerInLayer: as PackLayer, which it calls: which units the layer in layer packs is not stated.
- Afit.EbAfit.LayerPass: as PackLayer: which units a round packs is not stated.
- Afit.EbAfit.PackLayers: as PackLayer: which units the layer loop packs is not stated.
- Afit.EbAfit.PackFrom: an iteration's packed volume is the volume of the units it marks packed (`Tally`, part of `Searching`), but which units those are is not computed. The volumes the search compares are therefore those of a packing the model does not pin down, and `Afit.EbAfit.ExecuteIterations` proves the first-best choice over whatever volumes the iterations reach.
- Afit.EbAfit.Replay: the replayed packing is consistent (`Settled`) but, as for PackFrom, which units it packs is not stated.
- Afit.EbAfit.Report: as Replay, which it calls.
- Afit.EbAfit.Situation2Whole, Situation2Part, Situation4AWhole, Situation4ARight, Situation4ALeft, Situation4BPart and Situation4BUnlevel are branch helpers of the situation methods. They carry the same contract, so they have no rows of their own.
- Decimal arithmetic is exact here; the 28-digit precision of C# `decimal` and its overflow are not modelled.
- FindBox's starting keys (32767) and FindLayer's starting evaluation (1000000) are kept as constants. Keys or evaluations at or above them are taken as no fit, as in the source.
- The parameterless constructor of `Item` (Item.cs:21) is not modelled; the five-argument constructor covers every use in the core.
- AK_PACK's null checks (`packedItems ?? new List`, `unPackedItems != null`, `result != null`) are left out: no null is ever passed within the core.
