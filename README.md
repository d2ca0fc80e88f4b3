# World map generator, modelled and proved in Dafny

`WorldMapGenerator` builds a tile map for a Unity scene. `Generate(seed,
width, height, updateCount)` allocates a row-major `width * height` array of
tile indices and sets its outer ring to the sea tile 0. It fills every
interior cell, row by row, with a random tile index in `[0, tileCount)`. Then
it runs `updateCount` relaxation passes (`UpdateWorldMap`). Each pass has two
sweeps over the interior, both in row-major order:

- **Diffusion.** Every interior cell copies the neighbour that a random draw
  in `[0, 4)` picks from the table right, left, down, up. It takes 0 when that
  neighbour is not an interior cell.
- **Homogenisation.** Every interior cell whose four neighbour values agree
  takes that value. A neighbour that is not interior counts as 0.

Both sweeps write each cell straight back into the array. A cell visited
later therefore sees the values written earlier in the same sweep: its left
and upper neighbours have already been rewritten. The model keeps this
in-place behaviour. A reading in which every neighbour comes from the map as
it stood before the sweep does not match the code.
`Generation.HomogenisationInPlace` exhibits a 5 by 5 map on which the two
readings give different results.

The project has five modules:

- `Grid` (grid.dfy) covers the flat row-major map. It has cell access, the
  direction table and the neighbour value `Look`. `Look` reads a neighbour
  that precedes the cell in row-major order from the map being written, and
  any other neighbour from the map as the sweep found it. `Rows(w, n)` counts
  `w * n` row by row, and `RowsProduct` ties it to the product.
- `Sweeps` (sweep.dfy) covers one in-place pass of any of the three kinds
  (random fill, diffusion, homogenisation).
  - `SweepFrom` is the rest of a pass from a given cell on, as a function.
  - `SweepCells` states, cell by cell, what a whole pass computes.
  - `Scan` is the homogenisation loop with its `-1` marker and early
    `break`, written as the source writes it.
- `Generation` (generation.dfy) covers setup (`Initial`), one pass (`Pass`),
  `n` passes (`Relax`) and the whole result (`Generated`). It also holds the
  properties proved about them.
- `Randomness` (random.dfy) is the engine's random number generator. The
  model treats it as input: a seed selects a sequence of values, and `Range`
  returns the next one.
- `WorldMap` (world_map_generator.dfy) is the component itself. It is a
  class with the array `mapData`, the size `mapWidth`, `mapHeight`, and the
  methods `Generate` and `UpdateWorldMap`. Their loops are proved against the
  functions above.

Generation is deterministic: the map `Generate` leaves is
`Generated(width, height, updateCount, draws)`, a function of the size, the
update count and the seed's draw sequence alone.

## Model

| member | source | states |
|---|---|---|
| WorldMap.WorldMapGenerator.Generate | Assets/Scripts/WorldMapGenerator.cs:38-81 | With width or height 0 nothing changes and no draw is used. Otherwise the random generator restarts at the seed's sequence, and the map is a fresh array of exactly width * height cells. It equals `Generated` of the size, the update count and the seed's draws. It keeps the outer ring 0 and every cell in [0, tileCount). Exactly InteriorCount + max(0, updateCount) * InteriorCount draws are used. |
| WorldMap.WorldMapGenerator.SeaMap | Assets/Scripts/WorldMapGenerator.cs:54-66 | The allocation and the two ring loops yield a fresh width * height array whose every cell is 0. |
| WorldMap.WorldMapGenerator.Populate | Assets/Scripts/WorldMapGenerator.cs:69-81 | The random fill and the update loop, starting on the zeroed map at the start of the draw sequence, turn the map into `Generated` and use exactly the fill draws and the pass draws. |
| WorldMap.WorldMapGenerator.FillInterior | Assets/Scripts/WorldMapGenerator.cs:69-77 | The nested fill loops take exactly InteriorCount(w, h) draws. They leave the map equal to `Filled`: the row-major fill pass over the map, one draw per interior cell. |
| WorldMap.WorldMapGenerator.Relaxation | Assets/Scripts/WorldMapGenerator.cs:79-81 | The update loop runs max(0, updateCount) passes, each taking the next InteriorCount draws. The map becomes `Relax` of the old map and those draws. |
| WorldMap.WorldMapGenerator.UpdateTurn | Assets/Scripts/WorldMapGenerator.cs:80-81 | One turn of the update loop takes the next InteriorCount draws, which pick directions, and leaves `Pass` of the old map and those draws. The remaining left - 1 passes over the remaining draws then lead to the same map as the left passes did before the turn. |
| WorldMap.WorldMapGenerator.FillRow | Assets/Scripts/WorldMapGenerator.cs:71-76 | Filling row y takes one draw per interior cell of the row, so the cursor moves by max(0, w - 2). Every cell outside row y keeps its value. The rest of the fill from row y + 1 on the new map equals the rest of the fill from row y on the old map, over the same remaining draws, which fixes row y as well. |
| WorldMap.WorldMapGenerator.UpdateWorldMap | Assets/Scripts/WorldMapGenerator.cs:99-156 | One update takes exactly InteriorCount draws and leaves `Pass` of the old map: the diffusion sweep, then the homogenisation sweep. |
| WorldMap.WorldMapGenerator.Diffusion | Assets/Scripts/WorldMapGenerator.cs:101-120 | The diffusion loops take one draw per interior cell and leave `Diffused` of the old map and those draws. |
| WorldMap.WorldMapGenerator.DiffuseRow | Assets/Scripts/WorldMapGenerator.cs:104-119 | Diffusing row y takes one direction draw per interior cell of the row, so the cursor moves by max(0, w - 2). Every cell outside row y keeps its value. The rest of the diffusion sweep from row y + 1 on the new map equals the rest of the sweep from row y on the old map, over the same remaining draws, which fixes row y as well. |
| WorldMap.WorldMapGenerator.DiffuseCell | Assets/Scripts/WorldMapGenerator.cs:106-118 | The loop body writes into cell (x, y) the neighbour value its draw selects, or 0 outside the interior, and changes nothing else. |
| WorldMap.WorldMapGenerator.Homogenisation | Assets/Scripts/WorldMapGenerator.cs:122-155 | The homogenisation loops take no draws and leave `Homogenised` of the old map. |
| WorldMap.WorldMapGenerator.HomogeniseRow | Assets/Scripts/WorldMapGenerator.cs:125-154 | Homogenising row y takes no draw. Every cell outside row y keeps its value. The rest of the homogenisation sweep from row y + 1 on the new map equals the rest of the sweep from row y on the old map, which fixes row y as well. |
| WorldMap.WorldMapGenerator.HomogeniseCell | Assets/Scripts/WorldMapGenerator.cs:127-153 | The scan with the -1 marker and the early exit, followed by the conditional write, is exactly one step of the homogenisation pass. |
| Randomness.Random.InitState | Assets/Scripts/WorldMapGenerator.cs:49 | Reseeding restarts the sequence that belongs to the seed. |
| Randomness.Random.Range | Assets/Scripts/WorldMapGenerator.cs:73 | Range returns the next value of the sequence, which lies in [lo, hi), and advances by one. |
| Grid.RowsProduct | Assets/Scripts/WorldMapGenerator.cs:54 | Counting the cells row by row gives width * height, the length of the allocated array. |
| Grid.FlatIndex | Assets/Scripts/WorldMapGenerator.cs:106 | For a cell of the grid, the flat index y * width + x is its row-major position and lies in [0, width * height). |
| Grid.AtPut | Assets/Scripts/WorldMapGenerator.cs:118 | Writing one cell changes that cell and no other. |
| Grid.LookFlat | Assets/Scripts/WorldMapGenerator.cs:109-116 | The source's bounds test followed by the flat array read gives the neighbour value: 0 when the neighbour is not interior, else the array cell. |
| Grid.LookIn | Assets/Scripts/WorldMapGenerator.cs:112-116 | A neighbour value is 0 or a value of the map, so it lies in [0, n) when the map does. |
| Sweeps.ScanFrom | Assets/Scripts/WorldMapGenerator.cs:131-148 | Once the candidate is a non-negative tile s, the rest of the scan reports "same" exactly when every remaining value equals s, and the candidate stays s. |
| Sweeps.ScanAgreement | Assets/Scripts/WorldMapGenerator.cs:127-148 | On non-negative tiles the -1-marker scan reports "same" exactly when all four values equal the first, and its tile is then that value. |
| Sweeps.SweepCells | Assets/Scripts/WorldMapGenerator.cs:102-155 | An in-place pass from (x0, y0) leaves every cell it does not reach unchanged. Every cell it reaches gets the rule's value from its own draw. The rule reads neighbours that come earlier from the result and all others from the input. |
| Sweeps.SweepKeepsBorder | Assets/Scripts/WorldMapGenerator.cs:102-104 | A pass only visits 1 <= x <= w-2 and 1 <= y <= h-2, so an outer ring of 0 stays 0. |
| Sweeps.SweepKeepsRange | Assets/Scripts/WorldMapGenerator.cs:112-118 | Every pass keeps all cells in [0, n). Diffusion writes 0 or an existing value, homogenisation a neighbour value, and the fill a draw in [0, n). |
| Generation.InteriorDraws | Assets/Scripts/WorldMapGenerator.cs:69-77 | A pass over the whole map takes exactly InteriorCount(w, h) draws. |
| Generation.InteriorCountProduct | Assets/Scripts/WorldMapGenerator.cs:69-72 | InteriorCount(w, h) is max(0, w-2) * max(0, h-2). |
| Generation.RankOfCell | Assets/Scripts/WorldMapGenerator.cs:69-77 | A pass from (1, 1) gives interior cell (x, y) the draw at its row-major rank, which lies in [0, InteriorCount). |
| Generation.RankProduct | Assets/Scripts/WorldMapGenerator.cs:69-72 | The row-major rank of interior cell (x, y) is (y-1) * (w-2) + (x-1). |
| Generation.InitialCells | Assets/Scripts/WorldMapGenerator.cs:54-77 | After setup the map has w * h cells and its outer ring is 0. Interior cell (x, y) holds the fill draw of its row-major rank. |
| Generation.InitialInRange | Assets/Scripts/WorldMapGenerator.cs:73-74 | With fill draws in [0, tileCount), every cell after setup is in [0, tileCount). |
| Generation.DiffusionCells | Assets/Scripts/WorldMapGenerator.cs:102-120 | Diffusion leaves the outer ring unchanged. Interior cell (x, y) takes the neighbour value in the direction of the draw at its rank, reading an already visited neighbour with its new value. |
| Generation.HomogenisationCells | Assets/Scripts/WorldMapGenerator.cs:123-155 | Homogenisation leaves the outer ring unchanged. Interior cell (x, y) becomes v exactly when its four neighbour values, as the sweep finds them, all equal v. Otherwise it keeps its value. |
| Generation.HomogenisationInPlace | Assets/Scripts/WorldMapGenerator.cs:150-153 | Because the write happens in place, a cell whose four neighbours all held 0 before the sweep can keep its 1. This happens when an earlier neighbour is snapped first. |
| Generation.PassKeeps | Assets/Scripts/WorldMapGenerator.cs:99-156 | One update keeps the outer ring 0 and every cell in [0, n). |
| Generation.PassDrawsProduct | Assets/Scripts/WorldMapGenerator.cs:79-81 | n updates over k interior cells take n * k draws. |
| Generation.RelaxKeeps | Assets/Scripts/WorldMapGenerator.cs:79-81 | Any number of updates keeps the outer ring 0 and every cell in [0, n). |
| Generation.GeneratedShape | Assets/Scripts/WorldMapGenerator.cs:38-81 | A generated map has w * h cells, its outer ring is 0 and every cell is in [0, tileCount). With updateCount <= 0 it is the map right after setup. |

## Left out

- Rendering is not modelled. This covers destroying the previous tiles (WorldMapGenerator.cs:43-46) and instantiating, placing and parenting one prefab per cell (WorldMapGenerator.cs:84-92). These are scene-graph side effects with float positions. What remains of them is that every cell must index `m_tilePrefabs`, which `Generate` guarantees.
- The engine's random number generator algorithm is not modelled. A seed selects a sequence (`Random.sequenceFor`). `Range` returns the next value, and its precondition that this value lies in [lo, hi) stands for the engine's promise.
- Randomness.Random.Range: the value at a given position does not depend on the bounds. The engine maps its next state into [lo, hi), so its value depends on lo and hi. One fixed sequence therefore stands for the bounds of one `Generate` call: [0, tileCount) for the first InteriorCount draws, then [0, 4) for every pass draw.
- Generate: requires the seed's sequence to hold enough values (`DrawsFit`). The engine's generator never runs out, and that predicate says so for the draws one call uses.
- Generate: requires tileCount >= 1 when both sizes are non-zero. With no prefabs the source still draws from Range(0, 0) and then fails in rendering at the first prefab lookup (WorldMapGenerator.cs:89). That step is out of this model.
- Generate: requires positive sizes when neither is 0. With exactly one negative size the source's allocation throws. With two negative sizes it allocates a positive-length array that no loop visits.
- Generate: does not model the 32-bit wrap-around of width * height or of the index arithmetic, because integers are unbounded here. The source overflows only for maps of 2^31 or more cells, more than int.MaxValue.
- `m_direction` holds float vectors that the source casts to int. The model holds the four integer pairs (`Grid.Directions`).
- The model does not keep the source's single method bodies. `SeaMap`, `Populate`, `Relaxation`, `UpdateTurn`, `FillInterior`, `FillRow`, `Diffusion`, `DiffuseRow`, `DiffuseCell`, `Homogenisation`, `HomogeniseRow` and `HomogeniseCell` are parts of `Generate` and `UpdateWorldMap`: their loops and loop bodies, split into methods. Each one performs the same reads and writes in the same order as the inline code.
- SingletonMonoBehaviour.cs, UIMenuManager.cs and OperationManager.cs are not part of this model. They hold engine object lookup, UI wiring and camera control.
