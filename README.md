# FlowApp water simulation engine, modelled in Dafny

FlowApp simulates water running downhill over a terrain. The terrain is a
`dimx` x `dimy` grid of heights. On top of it lies a grid of integer water
depths (`Water`). The `Water` object also keeps a shuffled list of the linear
cell indices, the traversal order.

A generation runs four `FlowThread` workers. Each one visits a quarter of the
traversal order. At each visited cell:

- a dry cell is skipped;
- an edge cell holding water is emptied;
- an interior cell sends one unit to the neighbour the scan picks, if that
  neighbour's water surface (`depth * 0.01 + height`) is strictly below its own.

Every change is written back to the grid at once, so later visits see it.

The model has three modules:

- `TerrainModel` (`Terrain.dfy`): the height grid as an immutable value. The
  methods read it through `GetHeight`, the value-level functions directly.
- `WaterModel` (`Water.dfy`): the `Water` class. It holds the depths in an
  `array2<int>` and the traversal order in a `seq<int>`. Its methods state
  the new contents through the value view `Depths()`. The file also holds the
  grid-value functions that state those contents: `SetCell`, `Sourced`,
  `Total`, `Locate` and `Range`.
- `FlowModel` (`FlowThread.dfy`): the flow rule as a pure function `Visit`.
  `FlowRange` folds `Visit` over a slice of the traversal order. The
  `FlowThread` class has `WaterFlow` and `Run`, proved against `FlowRange`.
  `Generation` runs the four workers one after another.

Surfaces are `real`. The neighbour scan is modelled as written: its loop
starts at index 1, so the north-west neighbour (index 0) is never compared.
NW becomes the candidate only when no other neighbour's surface is below
1000000. It then receives water only if its surface is below the visited
cell's. `NorthWestPassedOver` gives a concrete case: NW is strictly the
lowest and the scan still picks N.

## Model

| member | source | states |
|---|---|---|
| `TerrainModel.Terrain.GetHeight` | src/Terrain.java:63-65 | the height read is the grid's entry at (x, y); only in-bounds reads are allowed |
| `WaterModel.Water.Dim` | src/Water.java:37-39 | for a valid object, the number of cells equals the length of the traversal order and the product of the array's two dimensions |
| `WaterModel.Water.GetDepth` | src/Water.java:63-65 | the depth read is cell (x, y) of the grid's value view |
| `WaterModel.Water.SetDepth` | src/Water.java:73-75 | the new grid is the old one with only cell (x, y) replaced by d |
| `WaterModel.SetCell` | src/Water.java:73-75 | the replaced cell reads back d, every other cell is unchanged, and the shape is kept |
| `WaterModel.TotalSetCell` | src/Water.java:73-75 | overwriting one cell changes the total depth by exactly new minus old |
| `WaterModel.Water.constructor` | src/Water.java:90-95 | the dimensions are the arguments, every depth is 0 and the traversal order is a permutation of the cell indices |
| `WaterModel.Water.Reset` | src/Water.java:100-106 | afterwards every depth is 0 and the traversal order is a permutation of 0 .. dimx*dimy-1 |
| `WaterModel.Water.GenPermute` | src/Water.java:111-116 | the traversal order becomes a bijection onto 0 .. dim()-1 |
| `WaterModel.Shuffle` | src/Water.java:115 | for every sequence of random choices, the shuffle keeps the length and the multiset of elements: it only reorders |
| `WaterModel.RangeShuffled` | src/Water.java:111-116 | any reordering of 0 .. n-1 has length n, entries in range, no repeats, and contains every index |
| `WaterModel.RangeCount` | src/Water.java:112-114 | the list 0 .. n-1 holds each value at most once, and holds v exactly when 0 <= v < n |
| `WaterModel.Locate` | src/Water.java:123-128 | a linear position below dimx*dimy maps to an in-bounds cell (x, y) with x*dimy + y equal to the position |
| `WaterModel.LocateRoundTrip` | src/Water.java:123-128 | every in-bounds cell is the image of its linear position x*dimy + y |
| `WaterModel.LinearUnique` | src/Water.java:123-128 | the decomposition x*dimy + y with 0 <= y < dimy is unique |
| `WaterModel.LocateInjective` | src/Water.java:123-128 | distinct linear positions map to distinct cells |
| `WaterModel.Water.GetPermute` | src/Water.java:135-137 | the cell at slot i lies in bounds and its linear index is the permutation entry at i |
| `WaterModel.Water.GetPermuteInjective` | src/Water.java:135-137 | distinct slots of the traversal order give distinct cells |
| `WaterModel.Water.GetPermuteOnto` | src/Water.java:135-137 | every cell of the grid is given by some slot of the traversal order |
| `WaterModel.Water.MakeSource` | src/Water.java:195-199 | the new grid adds 3 to exactly the on-grid cells of the 7 x 7 window around (x, y) and leaves all others unchanged, for any centre, even off the grid |
| `WaterModel.Sourced` | src/Water.java:195-199 | the grid after a source at (x, y): 3 more on every on-grid cell of the 7 x 7 window [x-3, x+3] x [y-3, y+3], every other cell as before; the grid keeps its shape |
| `WaterModel.SourcedTotal` | src/Water.java:195-199 | a source raises the total depth by 3 times the number of on-grid window cells |
| `WaterModel.SourcedNonNegative` | src/Water.java:195-199 | a source keeps a grid without negative depths without negative depths |
| `WaterModel.SumAddBand` | src/Water.java:197-199 | adding 3 to the entries of one column whose index lies in the window adds 3 per such on-grid entry to the column sum |
| `WaterModel.TotalAddRect` | src/Water.java:196-199 | adding 3 on a rectangle of cells adds 3 per on-grid cell of it to the total |
| `FlowModel.FlowThread.constructor` | src/FlowThread.java:29-33 | the worker keeps its quarter, the terrain and the water grid it was given |
| `FlowModel.FlowThread.Run` | src/FlowThread.java:38-43 | the worker applies the flow rule to the slice [dim/4*q, dim/4*(q+1)) of the traversal order |
| `FlowModel.Shard` | src/FlowThread.java:39-41 | worker q's slice is [dim/4*q, dim/4*(q+1)); every worker's slice has the same length dim/4 |
| `FlowModel.ShardsTile` | src/FlowThread.java:39-41 | the slices start at 0, each ends where the next starts, each lies within [0, dim], and the last ends at 4*(dim/4) |
| `FlowModel.ShardsDisjoint` | src/FlowThread.java:39-41 | no position of the traversal order lies in two workers' slices |
| `FlowModel.ShardsCover` | src/FlowThread.java:39-41 | a position is visited by some worker exactly when it is below 4*(dim/4); the last dim % 4 positions (at most 3) are never visited |
| `FlowModel.FlowThread.WaterFlow` | src/FlowThread.java:48-112 | the new grid is the old one with the flow rule applied at slots start .. end-1 in increasing order, each step seeing the previous ones |
| `FlowModel.FlowThread.FlowAt` | src/FlowThread.java:50-110 | one loop iteration changes the grid exactly as the flow rule at the visited cell says |
| `FlowModel.FlowThread.FlowDownhill` | src/FlowThread.java:54-107 | at an interior wet cell the grid changes exactly as the flow rule says |
| `FlowModel.FlowThread.Surroundings` | src/FlowThread.java:55-68 | the computed surfaces are those of the cell and of its eight neighbours, in the order NW, N, NE, W, E, SW, S, SE |
| `FlowModel.FlowThread.MoveUnit` | src/FlowThread.java:104-106 | the source cell loses one unit, then the target gains one unit on the updated grid |
| `FlowModel.Neighbour` | src/FlowThread.java:77-102 | every neighbour number 0..7 names one of the eight cells adjacent to (x, y) |
| `FlowModel.NeighbourInjective` | src/FlowThread.java:77-102 | distinct neighbour numbers name distinct cells |
| `FlowModel.SurfAround` | src/FlowThread.java:61-68 | the eight surfaces around an interior cell, NW, N, NE, W, E, SW, S, SE; there are always exactly eight |
| `FlowModel.SurfAroundNeighbours` | src/FlowThread.java:61-68 | entry k of the surroundings is the water surface of neighbour number k |
| `FlowModel.LowestUpTo` | src/FlowThread.java:56-58 | after scanning entries 1 .. n-1, the index is the first strict minimum below 1000000, or 0 if there is none |
| `FlowModel.Lowest` | src/FlowThread.java:70-74 | the scan's result is below 8 and is the first strict minimum of entries 1..7 below 1000000, or 0 |
| `FlowModel.LowestAround` | src/FlowThread.java:56-74 | the loop from i = 1 with start values 0 and 1000000 returns exactly that first strict minimum, or 0 |
| `FlowModel.IsLowestUnique` | src/FlowThread.java:70-74 | the description of the scan's result determines it uniquely |
| `FlowModel.NorthWestOnlyByDefault` | src/FlowThread.java:56-58 | the scan returns NW (0) exactly when every other neighbour's surface is at least 1000000, whatever NW's own surface |
| `FlowModel.NorthWestIgnored` | src/FlowThread.java:70-74 | for every input, changing NW's surface never changes the scan's result: NW is never compared |
| `FlowModel.NorthWestPassedOver` | src/FlowThread.java:70-74 | with NW strictly lowest and all other surfaces equal, the scan returns N (1): NW is never compared |
| `FlowModel.Visit` | src/FlowThread.java:53-110 | one iteration of the traversal loop: a dry cell is skipped; a wet interior cell moves one unit to the neighbour the scan picks if that surface is strictly lower; a wet edge cell is set to 0; the grid keeps the terrain's shape |
| `FlowModel.Drain` | src/FlowThread.java:108-109 | water is lost at a visit exactly when the cell is wet and on the edge, and the loss is never negative |
| `FlowModel.VisitDry` | src/FlowThread.java:53 | visiting a cell without water leaves the whole grid unchanged |
| `FlowModel.VisitDrainsEdge` | src/FlowThread.java:108-109 | visiting a wet edge cell sets it to 0 and changes no other cell |
| `FlowModel.VisitTransfers` | src/FlowThread.java:76-106 | at a wet interior cell the grid changes if and only if the picked neighbour's surface is strictly lower; then the cell loses 1, that neighbour gains 1 and every other cell is unchanged |
| `FlowModel.VisitStrictDescent` | src/FlowThread.java:54-106 | any other cell that changes is adjacent to the visited cell, had a strictly lower surface and gains exactly 1, while the visited cell loses exactly 1 |
| `FlowModel.VisitTotal` | src/FlowThread.java:53-109 | a visit changes the total depth only by the amount drained at an edge cell |
| `FlowModel.VisitNonNegative` | src/FlowThread.java:53-106 | a visit keeps every depth non-negative |
| `FlowModel.FlowRange` | src/FlowThread.java:49-110 | the grid after visiting a slice keeps the terrain's shape |
| `FlowModel.Drained` | src/FlowThread.java:108-109 | the water drained over a slice is never negative |
| `FlowModel.FlowRangeTotal` | src/FlowThread.java:49-110 | over a slice, the total after equals the total before minus the units drained at edge cells |
| `FlowModel.FlowRangeNonNegative` | src/FlowThread.java:49-110 | over a slice, depths stay non-negative |
| `FlowModel.FlowRangeDrainBounded` | src/FlowThread.java:49-110 | starting without negative depths, the water drained over a slice is between 0 and the total the grid held at the start |
| `FlowModel.FlowRangeStill` | src/FlowThread.java:49-53 | a dry grid stays dry over any slice |
| `FlowModel.FlowRangeSplit` | src/FlowThread.java:49-110 | visiting [a, b) and then [b, c) gives the same grid as visiting [a, c) |
| `FlowModel.Generation` | src/FlowCtrl.java:72-78 | the four workers run one after another visit positions 0 .. 4*(dim/4)-1 of the traversal order in increasing order |

## Left out

- `Water.deriveImage` and `Terrain.deriveImage`: they compute colours and images for display. The colours are not modelled.
- `WaterModel.Water.constructor`, `WaterModel.Water.Reset` and `WaterModel.Water.MakeSource` assume that their call to `Water.deriveImage` succeeds. In the Java it does so only on square, non-empty grids. The image is `dimy` wide and `dimx` tall (src/Water.java:143), but pixel (x, y) is written for every cell (src/Water.java:183, 186). So when `dimx != dimy` a write falls outside the image and throws. A zero dimension already throws when the image is created. On such grids the Java `reset` stops before `genPermute` (src/Water.java:104-105), and `makeSource` throws after adding the water (src/Water.java:200). The model regenerates the permutation and returns normally for every dimension.
- The `Terrain` constructor: it reads and parses the height file. It prints and swallows I/O errors and malformed tokens (src/Terrain.java:101-107). A truncated file (`NoSuchElementException`, lines 87-95), a negative dimension (line 91) or a zero dimension (the image created at line 114) throws out of it. Here the height grid is a given value: the methods read it through `GetHeight`, the value-level functions through `t.height`.
- `FlowCtrl`, `FlowApp`, `FlowPanel` and `TimeText`: the window, the buttons, the mouse handlers, the time display, thread start-up, the stop flag and the polling of `isAlive()`. A generation is modelled by `Generation` as the four workers running one after another. That is one of the interleavings of the real threads. The races between workers that touch neighbouring cells at the same time are not modelled. Neither are the user-interface thread's `makeSource` (mouse clicks and drags) and `reset` (the Reset button), which can run while a generation is in progress (src/FlowApp.java:78-97). `synchronized` on `waterFlow` locks only the worker's own object, so it excludes nothing between workers and has no counterpart here.
- `Shuffle`: the random number generator is not modelled. Each swap partner is chosen nondeterministically, and only the guarantee that the result reorders its input is proved. That holds for every sequence of random choices. The distribution of the permutation is not modelled.
- Surfaces are exact `real` numbers, not IEEE single-precision floats. `depth * 0.01 + height` is not rounded. Two surfaces that compare equal or unequal here may compare differently in floats.
- Depths are unbounded integers. The model does not capture a 32-bit overflow of `int` from repeated `makeSource` calls or from `dimx * dimy`.
- `getDimX` and `getDimY`: the dimensions are constant fields of `Water` and `Terrain`, read directly.
- The model does not promise that an edge cell is dry at the end of a generation. It can be drained and then receive a unit from a neighbour visited later in the same pass. Only the per-visit drain (`VisitDrainsEdge`) is stated.
