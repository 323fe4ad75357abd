# EchoAlchemist core, modelled in Dafny

This project models the gameplay core of EchoAlchemist, an Unreal Engine game about alchemy and marble physics. Each C++ class whose fields its methods update becomes a Dafny `class`, with those fields, `modifies` clauses and loops that carry their invariants. Pure logic becomes datatypes, functions and lemmas. Every operation is specified by a function of its inputs, and the properties the game relies on are proved about those functions.

The parts modelled:

- **World morphing** (`UWorldMorphingSubsystem`): a Width × Height grid of cells advanced by four layers per tick.
  - The mantle layer (`MantleLayer`, `MantleDiffusion`, `EdgeSupply`, `EdgeDistance`, `EdgeInjection`, `MantleBoundary`) covers:
    - biased energy diffusion that conserves the total;
    - the drifting edge supply points;
    - the breadth-first distance to the world's edge;
    - energy injection near the edge;
    - the expansion and shrinking of the world boundary.
  - The climate layer (`ClimateLayer`) relaxes temperatures in place and raises thunderstorms.
  - The crystal layer (`CrystalLayer`, `CrystalSharing`, `CrystalTransition`, `CrystalUpdate`, `CrystalRules`) covers absorption, energy sharing and the Alpha/Beta transitions.
  - The human layer (`HumanCensus`, `HumanChanges`, `HumanApply`, `HumanLayer`, `HumanRules`) covers founding, mining, migration and abandonment of settlements.
  - `WorldMorphing` holds the subsystem's initialisation and tick. `WorldGrid` and `WorldMorphingTypes` hold the grid and the parameter records.
- **Recipes**:
  - `RecipeData`: the order-independent recipe identifier and its matching rule.
  - `RecipeRules`: rarity, base effects, the world-state multiplier and the display texts.
  - `Recipes`: `URecipeSystem`, with its library, discovered set and usage counts.
  - `RecipeBlueprint`: the script-facing wrappers.
- **Element combination** (`Alchemy`): `UAlchemySystem`'s element table and its two-element recipes, searched in either order.
- **Marble physics**:
  - `PhysicsEffects`: the effect base class with its lifetime and activation, the wormhole's teleport and cooldowns, and the velocity modifier.
  - `PhysicsManager`: the effect manager that applies every active effect to every marble and removes expired effects.
  - `SpatialGrids`: the spatial hash grid of collision bodies.
- **Combat scenes**:
  - `SceneBase`: the shared bounce arithmetic.
  - `FallingScenes`: the falling scene with gravity and four walls.
  - `CircularScenes`: the circular scene's angle arithmetic.
  - `EnemyManagers` and `EnemyData`: the enemy manager's spawning, movement, damage, search and removal.
- **Procedural generation**:
  - `AppearanceAssemblers`: skeleton, part and palette selection.
  - `ShapeGenerators`: the cellular-automaton shape generator.
  - `PaletteGenerators`: spectrum and monochromatic palettes.
  - `PerlinNoises`: Perlin noise with its doubled permutation table and fractal sum.

Conventions used throughout:

- Engine floats are Dafny reals, and engine helpers are written out in `UnrealMath` and `Vectors`.
- Randomness is a parameter: every `FRand`/`RandRange` call site reads a draw function (`InitDraws`, `TickDraws`, `SupplyDraws`, `CrystalDraws`, `HumanDraws`, a `pick` oracle, a `draws` stream). Where the engine draws from a range, the draw is reduced into that range.
- sin, cos, atan2, exp and sqrt are the uninterpreted fields of a `MathFns` record. The polar-to-Cartesian conversions of the combat scenes are parameters too.
- An out-parameter or in-out reference becomes a returned value. An operation that can fail returns an `Option` from `Wrappers`.

## Model

| member | source | states |
|---|---|---|
| WorldGrid.CentreDistSq | Source/EchoAlchemist/Private/WorldMorphing/WorldMorphingSubsystem.cpp:53-66 | the squared distance of a cell from (Width/2, Height/2) is non-negative, the quantity the initial-radius and MaxRadius/MinRadius tests compare |
| WorldGrid.GetNeighbors | Source/EchoAlchemist/Private/WorldMorphing/WorldMorphingSubsystem.cpp:125-152 | the scan over DY, DX in [-1, 1] returns exactly the cells that pass IsValidCoord and are adjacent to (x, y), in scan order |
| WorldGrid.NeighborsExactly | Source/EchoAlchemist/Private/WorldMorphing/WorldMorphingSubsystem.cpp:130-152 | a coordinate is a neighbour if and only if it is a valid coordinate other than (x, y) at most one step away on each axis |
| WorldGrid.NeighborsDistinct | Source/EchoAlchemist/Private/WorldMorphing/WorldMorphingSubsystem.cpp:130-152 | there are at most eight neighbours and none is listed twice |
| WorldGrid.NeighborsValid | Source/EchoAlchemist/Private/WorldMorphing/WorldMorphingSubsystem.cpp:125-152 | every neighbour passes IsValidCoord and is adjacent to (x, y) |
| WorldGrid.ValidCoordRowMajor | Source/EchoAlchemist/Private/WorldMorphing/WorldMorphingSubsystem.cpp:125-128 | a coordinate IsValidCoord accepts (0 <= X < Width, 0 <= Y < Height) has a row-major index Y × Width + X inside [0, Width × Height) |
| WorldGrid.InWorldAmong | Source/EchoAlchemist/Private/WorldMorphing/WorldMorphingSubsystem.cpp:205-210 | the ExistingNeighbors filter keeps exactly the listed cells whose bExists is set, in order |
| WorldGrid.TotalMantlePut | Source/EchoAlchemist/Private/WorldMorphing/WorldMorphingSubsystem.cpp:246-257 | replacing one cell changes the total mantle energy by exactly the difference (the bookkeeping the conservation lemmas use) |
| WorldMorphing.SetNum | Source/EchoAlchemist/Private/WorldMorphing/WorldMorphingSubsystem.cpp:50-57 | TArray::SetNum keeps the first n elements and pads with the fill value, so the result has exactly n elements |
| WorldMorphing.InitialGrid | Source/EchoAlchemist/Private/WorldMorphing/WorldMorphingSubsystem.cpp:50-79 | Height rows of Width cells, each built by InitialCell from the cell the resized old grid holds at that place |
| WorldMorphing.FreshWorld | Source/EchoAlchemist/Private/WorldMorphing/WorldMorphingSubsystem.cpp:50-79 | on a fresh grid: every cell knows its place; a cell exists iff its squared distance to the centre is below (0.4 min(W, H))²; an existing cell holds 50 + 20 FRand (in [50, 70] for a draw in [0, 1]); a cell is Alpha iff it exists and lies closer than 3; every other cell is the default FCell |
| WorldMorphing.InitialLabelled | Source/EchoAlchemist/Private/WorldMorphing/WorldMorphingSubsystem.cpp:50-79 | every cell built by InitializeWorld carries its own (X, Y), whatever grid it was built over |
| WorldMorphing.ReinitKeepsOldFields | Source/EchoAlchemist/Private/WorldMorphing/WorldMorphingSubsystem.cpp:50-79 | re-initialising resizes the old grid in place, so a surviving cell keeps every field the loop does not write (temperature, stored energy, prosperity) |
| WorldMorphing.ReinitCanLeaveSettlementOutside | Source/EchoAlchemist/Private/WorldMorphing/WorldMorphingSubsystem.cpp:50-79 | a concrete grid shows that a settlement left from an earlier world stays on a cell that is now outside the world |
| WorldMorphing.WorldMorphingSubsystem.constructor | Source/EchoAlchemist/Private/WorldMorphing/WorldMorphingSubsystem.cpp:5-26 | a new subsystem has an empty grid and both counters at 0 |
| WorldMorphing.WorldMorphingSubsystem.InitializeWorld | Source/EchoAlchemist/Private/WorldMorphing/WorldMorphingSubsystem.cpp:28-82 | the size and parameters are set, TimeStep and CycleCount are 0, exactly max(EdgeSupplyPointCount, 0) supply points are seeded from the draws, and the grid is InitialGrid over the old one |
| WorldMorphing.SeedPoints | Source/EchoAlchemist/Private/WorldMorphing/WorldMorphingSubsystem.cpp:41-47 | the supply-point loop yields one point per index, each from its own angle and speed draws |
| WorldMorphing.BuildGrid | Source/EchoAlchemist/Private/WorldMorphing/WorldMorphingSubsystem.cpp:50-79 | the grid loop yields InitialGrid |
| WorldMorphing.WorldMorphingSubsystem.TickSimulation | Source/EchoAlchemist/Private/WorldMorphing/WorldMorphingSubsystem.cpp:84-102 | on an empty grid nothing changes; otherwise TimeStep rises by one, CycleCount rises by one exactly when the new TimeStep is a multiple of 1000, and the new grid and supply points are those of the mantle, climate, crystal and human layers run in that order (Ticked); a clean grid stays clean |
| WorldMorphing.AdvanceClock | Source/EchoAlchemist/Private/WorldMorphing/WorldMorphingSubsystem.cpp:91-95 | the counters: TimeStep + 1, and CycleCount + 1 exactly when the new TimeStep % 1000 == 0 |
| WorldMorphing.Tick | Source/EchoAlchemist/Private/WorldMorphing/WorldMorphingSubsystem.cpp:91-101 | on a non-empty grid the tick is AdvanceClock followed by RunLayers, as Ticked states |
| WorldMorphing.RunLayers | Source/EchoAlchemist/Private/WorldMorphing/WorldMorphingSubsystem.cpp:98-101 | the four layers run in order, each on the grid the one before left: the result is HumanStep of CrystalStep of ClimateStep of MantleStep (LayersRan) |
| WorldMorphing.TickKeepsPlaces | Source/EchoAlchemist/Private/WorldMorphing/WorldMorphingSubsystem.cpp:98-101 | no layer moves a cell: a labelled grid stays labelled through the tick |
| WorldMorphing.ClimateKeepsClean | Source/EchoAlchemist/Private/WorldMorphing/WorldMorphingSubsystem.cpp:462-546 | the climate layer changes no existence, mantle energy or crystal, so it keeps a clean grid clean |
| WorldMorphing.WorldMorphingSubsystem.GetCellAt | Source/EchoAlchemist/Private/WorldMorphing/WorldMorphingSubsystem.cpp:104-112 | out of range the default FCellState; in range the eight fields ToBlueprintState copies (existence, mantle, temperature, storm, state, stored energy, absorbing, prosperity) |
| WorldMorphingTypes.Cell.ToBlueprintState | Source/EchoAlchemist/Public/WorldMorphing/WorldMorphingTypes.h:226-239 | the blueprint view carries existence, mantle energy, temperature, storm flag, crystal state (as CrystalType), stored energy, absorption and prosperity unchanged; coordinates, accumulators and flows are not exposed |
| WorldMorphing.WorldMorphingSubsystem.SetSimulationParams | Source/EchoAlchemist/Private/WorldMorphing/WorldMorphingSubsystem.cpp:114-117 | only the parameters change |
| WorldMorphing.WorldMorphingSubsystem.GetGridSize | Source/EchoAlchemist/Private/WorldMorphing/WorldMorphingSubsystem.cpp:119-123 | returns Width and Height and changes nothing |
| WorldMorphing.WorldMorphingSubsystem.GetNeighbors | Source/EchoAlchemist/Private/WorldMorphing/WorldMorphingSubsystem.cpp:130-176 | the subsystem's neighbour list is Neighbors: valid cells around (x, y), never (x, y) itself, at most eight, none twice |
| MantleDiffusion.PairFlow | Source/EchoAlchemist/Private/WorldMorphing/WorldMorphingSubsystem.cpp:223-236 | the flow towards one neighbour is the energy difference times the rate plus the bias term, clamped into [-2, 2] |
| MantleDiffusion.PairFlowAntisymmetric | Source/EchoAlchemist/Private/WorldMorphing/WorldMorphingSubsystem.cpp:223-240 | seen from the other end a pair's flow is the same amount with the opposite sign, which is why the buffer sums to zero |
| MantleDiffusion.InWorldNeighbours | Source/EchoAlchemist/Private/WorldMorphing/WorldMorphingSubsystem.cpp:205-210 | the in-world neighbours of a cell, in GetNeighbors order |
| MantleDiffusion.InWorldNeighboursIs | Source/EchoAlchemist/Private/WorldMorphing/WorldMorphingSubsystem.cpp:205-210 | each in-world neighbour is listed once, never the cell itself, and the relation is symmetric between in-world cells |
| MantleDiffusion.DiffusionChanges | Source/EchoAlchemist/Private/WorldMorphing/WorldMorphingSubsystem.cpp:185-243 | the EnergyChanges buffer is zero off the world, each in-world entry is DiffusionAt (the flows booked onto that cell by itself and by its neighbours), and the buffer sums to exactly zero |
| MantleDiffusion.BookFlows | Source/EchoAlchemist/Private/WorldMorphing/WorldMorphingSubsystem.cpp:223-240 | one cell's bookings: its own entry gains each pair flow and each in-world neighbour's entry loses it, keeping the buffer's sum |
| MantleDiffusion.BookRow | Source/EchoAlchemist/Private/WorldMorphing/WorldMorphingSubsystem.cpp:198-243 | one row of the booking scan keeps the buffer equal to what the cells before the next row booked |
| MantleDiffusion.BookCell | Source/EchoAlchemist/Private/WorldMorphing/WorldMorphingSubsystem.cpp:200-242 | the booking scan's body for one cell keeps the buffer equal to what the cells before the next position booked |
| MantleDiffusion.ApplyDiffusion | Source/EchoAlchemist/Private/WorldMorphing/WorldMorphingSubsystem.cpp:246-257 | each in-world cell takes its change clamped into [0, 150], every other cell is untouched, and a clean grid stays clean with no negative energy |
| EdgeSupply.WrapOnceInRange | Source/EchoAlchemist/Private/WorldMorphing/WorldMorphingSubsystem.cpp:261-266 | an angle in [0, 2π] moved by at most 2π either way is back in [0, 2π] after the single add or subtract |
| EdgeSupply.WrapOnceIsSingle | Source/EchoAlchemist/Private/WorldMorphing/WorldMorphingSubsystem.cpp:263-265 | above 4π the wrap subtracts 2π once and the angle stays above 2π: the wrap is not repeated |
| EdgeSupply.MovedBy | Source/EchoAlchemist/Private/WorldMorphing/WorldMorphingSubsystem.cpp:261-272 | a moved point has angle WrapOnce(angle + speed (0.5 drift + 0.75)) and keeps its speed unless the 0.01 re-roll fires |
| EdgeSupply.MovedPoints | Source/EchoAlchemist/Private/WorldMorphing/WorldMorphingSubsystem.cpp:261-272 | all points are moved, each with its own draws; the count is kept |
| EdgeSupply.MoveSupplyPoints | Source/EchoAlchemist/Private/WorldMorphing/WorldMorphingSubsystem.cpp:261-272 | the loop over EdgeSupplyPoints yields MovedPoints: each angle wrapped once, each speed re-rolled only when its draw fires |
| EdgeDistance.SeedEdges | Source/EchoAlchemist/Private/WorldMorphing/WorldMorphingSubsystem.cpp:292-330 | DistToEdge starts at MAX_int32 everywhere; the in-world cells with an out-of-world neighbour or fewer than eight in-grid neighbours get 0 and are queued |
| EdgeDistance.Dequeue | Source/EchoAlchemist/Private/WorldMorphing/WorldMorphingSubsystem.cpp:333-353 | one turn of the search loop keeps the search invariant and lowers the number of unreached cells or the queue's remainder |
| EdgeDistance.EdgeDistances | Source/EchoAlchemist/Private/WorldMorphing/WorldMorphingSubsystem.cpp:292-353 | only in-world cells get a distance and none beyond MaxDist; exactly the seeds get 0; every other reached cell is one more than a neighbour; each distance is the length of a shortest in-world path from a seed, and every cell within MaxDist steps of a seed is reached (DistanceField) |
| EdgeDistance.DistanceField | Source/EchoAlchemist/Private/WorldMorphing/WorldMorphingSubsystem.cpp:292-353 | the reference distance field: MAX_int32 for unreached cells, otherwise the fewest in-world steps from a seed, with nothing expanded past MaxDist |
| EdgeDistance.ReachedWithin | Source/EchoAlchemist/Private/WorldMorphing/WorldMorphingSubsystem.cpp:333-353 | soundness: a reached cell really is that many steps from a seed |
| EdgeDistance.WithinReached | Source/EchoAlchemist/Private/WorldMorphing/WorldMorphingSubsystem.cpp:333-353 | completeness and minimality: a cell j <= MaxDist steps from a seed is reached with distance at most j |
| EdgeDistance.SearchResult | Source/EchoAlchemist/Private/WorldMorphing/WorldMorphingSubsystem.cpp:333-353 | when the queue is drained the search's field is DistanceField |
| EdgeDistance.Closure | Source/EchoAlchemist/Private/WorldMorphing/WorldMorphingSubsystem.cpp:333-353 | after the loop an unreached in-world cell has no neighbour the search expanded from |
| EdgeInjection.AngularDistanceRange | Source/EchoAlchemist/Private/WorldMorphing/WorldMorphingSubsystem.cpp:280-286 | the angular distance of two angles in [0, 2π] lies in [0, π], is symmetric, and is 0 only for equal angles (or 0 and 2π) |
| EdgeInjection.DensityNonNegative | Source/EchoAlchemist/Private/WorldMorphing/WorldMorphingSubsystem.cpp:277-289 | with a non-negative falloff the density is non-negative and at least each supply point's own contribution |
| EdgeInjection.GetDensity | Source/EchoAlchemist/Private/WorldMorphing/WorldMorphingSubsystem.cpp:277-289 | the loop over the supply points sums each point's Gaussian falloff of the angular distance |
| EdgeInjection.InjectEdgeEnergy | Source/EchoAlchemist/Private/WorldMorphing/WorldMorphingSubsystem.cpp:356-381 | each cell becomes Injected: an in-world cell whose distance lies in [Offset, Offset + Width) gains EdgeGenerationEnergy times the density at its atan2 angle, unclamped; every other cell is kept |
| EdgeInjection.InjectionKeeps | Source/EchoAlchemist/Private/WorldMorphing/WorldMorphingSubsystem.cpp:356-381 | injection changes only the mantle energy of in-world cells, keeps a clean grid clean, and lowers no energy when the energy and falloff are non-negative |
| MantleBoundary.ExpansionTargets | Source/EchoAlchemist/Private/WorldMorphing/WorldMorphingSubsystem.cpp:403-421 | EmptyNeighbors: the out-of-world neighbours within MaxRadius of the centre, in scan order |
| MantleBoundary.Grown | Source/EchoAlchemist/Private/WorldMorphing/WorldMorphingSubsystem.cpp:423-427 | growth: the target enters the world with half the cell's energy and the cell keeps the other half |
| MantleBoundary.ExpandStep | Source/EchoAlchemist/Private/WorldMorphing/WorldMorphingSubsystem.cpp:403-428 | growth is a boundary change that loses nothing and keeps a clean grid clean |
| MantleBoundary.LeaveStep | Source/EchoAlchemist/Private/WorldMorphing/WorldMorphingSubsystem.cpp:451-453 | a cell left with no energy leaving the world is a boundary change |
| MantleBoundary.ShareStep | Source/EchoAlchemist/Private/WorldMorphing/WorldMorphingSubsystem.cpp:436-449 | giving one share to an in-world neighbour raises the total by exactly the share, keeps the boundary guarantees and, for a non-negative share, keeps energy non-negative |
| MantleBoundary.SpreadAll | Source/EchoAlchemist/Private/WorldMorphing/WorldMorphingSubsystem.cpp:436-449 | the shares given to each listed neighbour in turn |
| MantleBoundary.SpreadEnergy | Source/EchoAlchemist/Private/WorldMorphing/WorldMorphingSubsystem.cpp:436-449 | the redistribution loop adds EnergyPerNeighbor to every listed in-world neighbour and changes no other cell; the grid's total rises by exactly share × count |
| MantleBoundary.SpreadAllKeeps | Source/EchoAlchemist/Private/WorldMorphing/WorldMorphingSubsystem.cpp:436-449 | giving the shares one at a time is a boundary change whose loss is minus the shares given |
| MantleBoundary.EnergyPerNeighbour | Source/EchoAlchemist/Private/WorldMorphing/WorldMorphingSubsystem.cpp:444-445 | equal shares of an energy over k neighbours add back up to it, and are non-negative when it is |
| MantleBoundary.ShareBack | Source/EchoAlchemist/Private/WorldMorphing/WorldMorphingSubsystem.cpp:444-447 | k equal shares of e, added up, give e back |
| MantleBoundary.SharedThenLeave | Source/EchoAlchemist/Private/WorldMorphing/WorldMorphingSubsystem.cpp:436-453 | giving away all of a cell's energy and then leaving the world loses nothing |
| MantleBoundary.ShareAndLeave | Source/EchoAlchemist/Private/WorldMorphing/WorldMorphingSubsystem.cpp:436-453 | the shrink with in-world neighbours: each gets EnergyPerNeighbor, then the cell leaves with no energy and no crystal; total energy is conserved |
| MantleBoundary.ShrinkCell | Source/EchoAlchemist/Private/WorldMorphing/WorldMorphingSubsystem.cpp:430-455 | shrink: the energy is split equally over the in-world neighbours (lost only when there are none) and the cell leaves the world |
| MantleBoundary.Shrunk | Source/EchoAlchemist/Private/WorldMorphing/WorldMorphingSubsystem.cpp:430-455 | shrink as a value; ShrunkKeeps proves it a boundary change |
| MantleBoundary.ShrunkKeeps | Source/EchoAlchemist/Private/WorldMorphing/WorldMorphingSubsystem.cpp:430-455 | shrinking is a boundary change that loses the cell's energy only when no neighbour takes it |
| MantleBoundary.CellResult | Source/EchoAlchemist/Private/WorldMorphing/WorldMorphingSubsystem.cpp:389-457 | the decision for one cell: an in-world edge cell above ExpansionThreshold grows into the drawn expansion target (if any); one below ShrinkThreshold and beyond MinRadius shrinks; anything else is kept |
| MantleBoundary.BoundaryCell | Source/EchoAlchemist/Private/WorldMorphing/WorldMorphingSubsystem.cpp:389-457 | the loop body for one cell yields CellResult on the grid as the pass has left it |
| MantleBoundary.CellResultKeeps | Source/EchoAlchemist/Private/WorldMorphing/WorldMorphingSubsystem.cpp:389-457 | every single decision is a boundary change |
| MantleBoundary.BoundaryPass | Source/EchoAlchemist/Private/WorldMorphing/WorldMorphingSubsystem.cpp:385-458 | the pass equals BoundaryResult (cells decided in raster order on the grid as it is being changed) and is a boundary change: total energy falls only by the energy of shrinking cells without neighbours, growth stays within MaxRadius, shrinking happens only beyond MinRadius, and a clean grid stays clean |
| MantleBoundary.BoundaryRow | Source/EchoAlchemist/Private/WorldMorphing/WorldMorphingSubsystem.cpp:387-457 | one row of the pass yields PassRow |
| MantleBoundary.PassRowKeeps | Source/EchoAlchemist/Private/WorldMorphing/WorldMorphingSubsystem.cpp:387-457 | the first x cells of a row, decided in order, make a boundary change |
| MantleBoundary.PassRowsKeeps | Source/EchoAlchemist/Private/WorldMorphing/WorldMorphingSubsystem.cpp:385-458 | the first y rows, decided in order, make a boundary change |
| MantleBoundary.BoundaryStepTrans | Source/EchoAlchemist/Private/WorldMorphing/WorldMorphingSubsystem.cpp:385-458 | boundary changes compose, their losses adding up |
| MantleBoundary.BoundaryChain | Source/EchoAlchemist/Private/WorldMorphing/WorldMorphingSubsystem.cpp:385-458 | two boundary changes from a non-negative grid compose into one with non-negative losses |
| MantleLayer.DiffusedGrid | Source/EchoAlchemist/Private/WorldMorphing/WorldMorphingSubsystem.cpp:185-257 | the grid after diffusion: each cell takes its DiffusionAt change through the clamped apply step |
| MantleLayer.InjectedGrid | Source/EchoAlchemist/Private/WorldMorphing/WorldMorphingSubsystem.cpp:292-381 | the grid after injection, with the distance field of the search on the same grid |
| MantleLayer.MantleStep | Source/EchoAlchemist/Private/WorldMorphing/WorldMorphingSubsystem.cpp:179-459 | one mantle tick as a value: diffusion, the supply-point drift, injection with the moved points only while EdgeGenerationEnergy > 0, then the boundary pass |
| MantleLayer.Diffuse | Source/EchoAlchemist/Private/WorldMorphing/WorldMorphingSubsystem.cpp:185-257 | the diffusion step equals DiffusedGrid |
| MantleLayer.InjectStage | Source/EchoAlchemist/Private/WorldMorphing/WorldMorphingSubsystem.cpp:292-381 | the distance search followed by injection equals InjectedGrid |
| MantleLayer.UpdateMantleLayer | Source/EchoAlchemist/Private/WorldMorphing/WorldMorphingSubsystem.cpp:179-459 | the layer equals MantleStep; a cell changes only its existence, energy and crystal, a crystal only ever turns Empty, growth stays within MaxRadius and shrinking beyond MinRadius; the supply points move as MovedPoints; a clean grid stays clean and, with a non-negative falloff, keeps no negative energy |
| MantleLayer.MantleStepKeeps | Source/EchoAlchemist/Private/WorldMorphing/WorldMorphingSubsystem.cpp:179-459 | the same per-cell and cleanliness guarantees, stated on MantleStep |
| MantleLayer.DiffusedKeeps | Source/EchoAlchemist/Private/WorldMorphing/WorldMorphingSubsystem.cpp:246-257 | diffusion changes only mantle energy and, from a clean grid, leaves none negative |
| MantleLayer.InjectedKeeps | Source/EchoAlchemist/Private/WorldMorphing/WorldMorphingSubsystem.cpp:356-381 | injection changes only mantle energy and, with a non-negative falloff, lowers none |
| MantleLayer.MantleStepOf | Source/EchoAlchemist/Private/WorldMorphing/WorldMorphingSubsystem.cpp:179-459 | the stages, each as its value, make up MantleStep |
| ClimateLayer.ClimateCell | Source/EchoAlchemist/Private/WorldMorphing/WorldMorphingSubsystem.cpp:482-521 | one cell of the first pass: base temperature (min(100, energy) − 50)/2 + seasonal offset; with in-world neighbours the change is DiffusionRate × (average − temperature), otherwise the stale change is kept; Alpha cools by 0.5 and Beta by 0.2; the result is relaxed towards the base and clamped to [−50, 50] |
| ClimateLayer.ExistingNeighbours | Source/EchoAlchemist/Private/WorldMorphing/WorldMorphingSubsystem.cpp:487-492 | the in-world neighbours, in GetNeighbors order |
| ClimateLayer.WarmCell | Source/EchoAlchemist/Private/WorldMorphing/WorldMorphingSubsystem.cpp:473-521 | the loop body reads the grid as the pass has left it: cells earlier in the scan contribute their new temperature |
| ClimateLayer.TemperatureTotal | Source/EchoAlchemist/Private/WorldMorphing/WorldMorphingSubsystem.cpp:496-500 | the AvgTemp loop sums the temperatures of the in-world neighbours as they stand |
| ClimateLayer.RelaxCell | Source/EchoAlchemist/Private/WorldMorphing/WorldMorphingSubsystem.cpp:483-521 | the arithmetic of the first pass on one in-world cell, given the neighbour count and temperature total, is ClimateCell |
| ClimateLayer.ClimatePass1 | Source/EchoAlchemist/Private/WorldMorphing/WorldMorphingSubsystem.cpp:469-523 | the first pass writes in place in raster order: each cell is its Warmed value read from the grid as the pass has left it, and the grid equals WarmRows |
| ClimateLayer.WarmRow | Source/EchoAlchemist/Private/WorldMorphing/WorldMorphingSubsystem.cpp:471-522 | one row of the first pass equals WarmCells on the grid the earlier rows left |
| ClimateLayer.MaxDiffOver | Source/EchoAlchemist/Private/WorldMorphing/WorldMorphingSubsystem.cpp:534-541 | MaxDiff over the in-world neighbours starts at 0, so it is never negative |
| ClimateLayer.MaxDiffExceeds | Source/EchoAlchemist/Private/WorldMorphing/WorldMorphingSubsystem.cpp:534-543 | MaxDiff exceeds a threshold iff the threshold is negative or some in-world neighbour differs by more than it |
| ClimateLayer.StormMeaning | Source/EchoAlchemist/Private/WorldMorphing/WorldMorphingSubsystem.cpp:526-545 | with a non-negative threshold a storm is raised iff some in-world neighbour's temperature differs by more than ThunderstormThreshold |
| ClimateLayer.MaxNeighbourDiff | Source/EchoAlchemist/Private/WorldMorphing/WorldMorphingSubsystem.cpp:533-541 | the MaxDiff loop of the second pass computes NeighbourMaxDiff |
| ClimateLayer.Thunderstorms | Source/EchoAlchemist/Private/WorldMorphing/WorldMorphingSubsystem.cpp:526-545 | the second pass sets every in-world cell's storm flag from StormAt and touches nothing else |
| ClimateLayer.StormsSettled | Source/EchoAlchemist/Private/WorldMorphing/WorldMorphingSubsystem.cpp:526-545 | the second pass keeps every temperature, so each flag it sets agrees with the rule read on the grid it leaves |
| ClimateLayer.Stormed | Source/EchoAlchemist/Private/WorldMorphing/WorldMorphingSubsystem.cpp:526-545 | the second pass as a value: in-world cells take StormAt, others are kept |
| ClimateLayer.UpdateClimateLayer | Source/EchoAlchemist/Private/WorldMorphing/WorldMorphingSubsystem.cpp:462-546 | only the four climate fields change; off-world cells end at −50 without a storm; in-world cells end in [−50, 50] with a storm iff the neighbour rule holds on the final temperatures; the result equals ClimateStep |
| CrystalLayer.Absorbed | Source/EchoAlchemist/Private/WorldMorphing/WorldMorphingSubsystem.cpp:556-594 | step 1 on one cell: a cell that is not a live Alpha crystal stops absorbing with CrystalEnergy 0; an Alpha crystal takes MantleAbsorption of its mantle energy (the mantle pays only above 0.1), adds the storm bonus, pays AlphaEnergyDemand and is capped at MaxCrystalEnergy |
| CrystalLayer.AbsorbPass | Source/EchoAlchemist/Private/WorldMorphing/WorldMorphingSubsystem.cpp:552-596 | the raster pass sets every cell to Absorbed |
| CrystalLayer.AbsorbCell | Source/EchoAlchemist/Private/WorldMorphing/WorldMorphingSubsystem.cpp:556-594 | the loop body for one cell yields Absorbed |
| CrystalLayer.ShareWithinLimit | Source/EchoAlchemist/Private/WorldMorphing/WorldMorphingSubsystem.cpp:631-641 | a flow that is booked never lifts its receiver above MaxCrystalEnergy × EnergySharingLimit |
| CrystalLayer.ShareDownhill | Source/EchoAlchemist/Private/WorldMorphing/WorldMorphingSubsystem.cpp:631-634 | with a rate in [0, 1] a flow runs from the richer crystal and does not overshoot the giver |
| CrystalLayer.ShareOnlyAlpha | Source/EchoAlchemist/Private/WorldMorphing/WorldMorphingSubsystem.cpp:624-629 | only live Alpha crystals take part in sharing |
| CrystalLayer.Rich | Source/EchoAlchemist/Private/WorldMorphing/WorldMorphingSubsystem.cpp:708-715 | RichNeighbors: the live Alpha neighbours storing at least ExpansionCost |
| CrystalLayer.Parent | Source/EchoAlchemist/Private/WorldMorphing/WorldMorphingSubsystem.cpp:705-723 | an Empty cell grows from the rich neighbour the RandRange draw picks, when it has one and the FRand() < 0.3 draw fires |
| CrystalLayer.LinksGrow | Source/EchoAlchemist/Private/WorldMorphing/WorldMorphingSubsystem.cpp:683-743 | the cells linked to a parent earlier in the scan are a prefix of those linked later |
| CrystalSharing.ClearEnergyFlows | Source/EchoAlchemist/Private/WorldMorphing/WorldMorphingSubsystem.cpp:611-617 | every cell's EnergyFlow log is emptied and nothing else changes |
| CrystalSharing.ShareEnergy | Source/EchoAlchemist/Private/WorldMorphing/WorldMorphingSubsystem.cpp:599-651 | every live Alpha receiver books from each richer live Alpha neighbour the flow the limit allows, the giver books its negation, and the giver (not the receiver) logs the flow with the receiver's coordinates |
| CrystalSharing.ShareWith | Source/EchoAlchemist/Private/WorldMorphing/WorldMorphingSubsystem.cpp:629-648 | one neighbour pass: the neighbour gives exactly when the sharing rule lets it |
| CrystalSharing.ShareCondition | Source/EchoAlchemist/Private/WorldMorphing/WorldMorphingSubsystem.cpp:629-641 | the source's test, on the cells as it reads them, is the sharing rule on the grid |
| CrystalSharing.OnlyCrystalsShare | Source/EchoAlchemist/Private/WorldMorphing/WorldMorphingSubsystem.cpp:624-629 | a cell that is not a live Alpha crystal neither gains nor gives |
| CrystalSharing.AfterSharing | Source/EchoAlchemist/Private/WorldMorphing/WorldMorphingSubsystem.cpp:658-662 | a live Alpha crystal adds its change and is clamped to [0, MaxCrystalEnergy]; every other cell is kept |
| CrystalSharing.ApplySharing | Source/EchoAlchemist/Private/WorldMorphing/WorldMorphingSubsystem.cpp:654-664 | the apply loop sets every cell to AfterSharing |
| CrystalSharing.SharingConserves | Source/EchoAlchemist/Private/WorldMorphing/WorldMorphingSubsystem.cpp:599-664 | when no new value is clamped, sharing keeps the grid's total stored energy |
| CrystalTransition.CountNeighbours | Source/EchoAlchemist/Private/WorldMorphing/WorldMorphingSubsystem.cpp:695-703 | AlphaNeighbors and BetaNeighbors: the in-world neighbours of each kind, in order |
| CrystalTransition.RichAmong | Source/EchoAlchemist/Private/WorldMorphing/WorldMorphingSubsystem.cpp:708-715 | RichNeighbors: the Alpha neighbours storing at least ExpansionCost, in order |
| CrystalTransition.Transitions | Source/EchoAlchemist/Private/WorldMorphing/WorldMorphingSubsystem.cpp:667-743 | every buffered state is NextState and every buffered stored energy is Pending, both read from the grid as it was before the scan |
| CrystalTransition.RuleQuiet | Source/EchoAlchemist/Private/WorldMorphing/WorldMorphingSubsystem.cpp:688-741 | cells outside the world, Beta and Human cells have no parent, keep their state and write nothing |
| CrystalTransition.RuleAlpha | Source/EchoAlchemist/Private/WorldMorphing/WorldMorphingSubsystem.cpp:725-740 | an Alpha cell ends Empty when isolated (no Alpha neighbour, fewer than 2 Beta, stored < 5), else Beta at stored ≤ 0, writing 0 either way |
| CrystalRules.Children | Source/EchoAlchemist/Private/WorldMorphing/WorldMorphingSubsystem.cpp:717-723 | the cells that grow from a given parent during one scan, in raster order, each a valid coordinate |
| CrystalRules.ChildrenExactly | Source/EchoAlchemist/Private/WorldMorphing/WorldMorphingSubsystem.cpp:717-723 | the children of c are exactly the cells whose parent is c |
| CrystalRules.NeverParent | Source/EchoAlchemist/Private/WorldMorphing/WorldMorphingSubsystem.cpp:708-723 | a cell that is not a live Alpha crystal or stores less than ExpansionCost is nobody's parent |
| CrystalRules.NewCrystalStartsAtFive | Source/EchoAlchemist/Private/WorldMorphing/WorldMorphingSubsystem.cpp:720-722 | a newly grown crystal starts with stored energy 5 |
| CrystalRules.SurvivorPaysPerChild | Source/EchoAlchemist/Private/WorldMorphing/WorldMorphingSubsystem.cpp:722 | a crystal that stays Alpha pays ExpansionCost once per child grown from it in the same tick, however many |
| CrystalRules.RetiredCrystalEmptied | Source/EchoAlchemist/Private/WorldMorphing/WorldMorphingSubsystem.cpp:728-751 | a crystal that hardens or dies has its entry set to 0 and later children still charge it, so the final max(0, ·) leaves it at 0 |
| CrystalRules.QuietCellKeepsStored | Source/EchoAlchemist/Private/WorldMorphing/WorldMorphingSubsystem.cpp:678-751 | a cell with no rule write and no children keeps its stored energy |
| CrystalRules.TransitionRules | Source/EchoAlchemist/Private/WorldMorphing/WorldMorphingSubsystem.cpp:705-743 | an in-world Empty cell grows into Alpha iff its draw fires and it has a rich Alpha neighbour; an Alpha cell hardens to Beta at stored ≤ 0 unless isolation death applies, which makes it Empty; Beta, Human and off-world cells keep their state |
| CrystalRules.GrowsBesideParent | Source/EchoAlchemist/Private/WorldMorphing/WorldMorphingSubsystem.cpp:717-723 | a new crystal grows next to a live Alpha parent that could afford ExpansionCost before the step |
| CrystalUpdate.AbsorbedGrid | Source/EchoAlchemist/Private/WorldMorphing/WorldMorphingSubsystem.cpp:552-596 | the grid after step 1: every cell Absorbed |
| CrystalUpdate.SharedGrid | Source/EchoAlchemist/Private/WorldMorphing/WorldMorphingSubsystem.cpp:599-664 | the grid after sharing: every cell its SharedCell value |
| CrystalUpdate.ApplyTransitions | Source/EchoAlchemist/Private/WorldMorphing/WorldMorphingSubsystem.cpp:746-753 | every cell takes its buffered state and max(0, buffered stored energy) |
| CrystalUpdate.UpdateCrystalLayer | Source/EchoAlchemist/Private/WorldMorphing/WorldMorphingSubsystem.cpp:549-754 | the layer equals CrystalStep cell by cell; a cell changes only its crystal fields; every stored energy ends ≥ 0; a clean grid stays clean; mantle energy stays non-negative |
| CrystalUpdate.AbsorbAndShare | Source/EchoAlchemist/Private/WorldMorphing/WorldMorphingSubsystem.cpp:552-664 | steps 1 and 2 yield SharedGrid of AbsorbedGrid |
| CrystalUpdate.TransitionsMakeStep | Source/EchoAlchemist/Private/WorldMorphing/WorldMorphingSubsystem.cpp:667-753 | the three passes, in order, compute CrystalStep |
| CrystalUpdate.CrystalStepKeeps | Source/EchoAlchemist/Private/WorldMorphing/WorldMorphingSubsystem.cpp:549-754 | a cell keeps its place, existence, climate and prosperity; stored energy ends ≥ 0; off-world, Beta and Human cells keep their state; a clean grid stays clean |
| HumanCensus.NoHumans | Source/EchoAlchemist/Private/WorldMorphing/WorldMorphingSubsystem.cpp:760-772 | the settlement count is 0 iff no cell is Human |
| HumanCensus.CountHumans | Source/EchoAlchemist/Private/WorldMorphing/WorldMorphingSubsystem.cpp:760-770 | the double loop counts the Human cells |
| HumanCensus.Select | Source/EchoAlchemist/Private/WorldMorphing/WorldMorphingSubsystem.cpp:851-855 | the neighbours of a kind, in order |
| HumanCensus.Collect | Source/EchoAlchemist/Private/WorldMorphing/WorldMorphingSubsystem.cpp:851-855 | a neighbour loop that builds a list yields Select |
| HumanCensus.CountOf | Source/EchoAlchemist/Private/WorldMorphing/WorldMorphingSubsystem.cpp:843-847 | HumanNeighborCount: the number of Human neighbours |
| HumanCensus.Score | Source/EchoAlchemist/Private/WorldMorphing/WorldMorphingSubsystem.cpp:915-926 | a migration candidate's score (10 in the comfortable band plus 1 per Beta neighbour) is never negative |
| HumanCensus.ScoreOf | Source/EchoAlchemist/Private/WorldMorphing/WorldMorphingSubsystem.cpp:915-926 | the score loop computes Score |
| HumanCensus.BestNone | Source/EchoAlchemist/Private/WorldMorphing/WorldMorphingSubsystem.cpp:908-935 | there is no best haven iff no neighbour is an existing Empty cell |
| HumanCensus.BestSome | Source/EchoAlchemist/Private/WorldMorphing/WorldMorphingSubsystem.cpp:908-935 | the best haven is an existing Empty neighbour and the best score is its score |
| HumanCensus.BestMax | Source/EchoAlchemist/Private/WorldMorphing/WorldMorphingSubsystem.cpp:928-932 | no candidate scores above the best score |
| HumanCensus.BestFirst | Source/EchoAlchemist/Private/WorldMorphing/WorldMorphingSubsystem.cpp:928-932 | ties go to the first candidate, because the test is strictly greater |
| HumanCensus.FindBestHaven | Source/EchoAlchemist/Private/WorldMorphing/WorldMorphingSubsystem.cpp:908-933 | the loop of step E yields the best haven and score |
| HumanRules.SelectNeighbors | Source/EchoAlchemist/Private/WorldMorphing/WorldMorphingSubsystem.cpp:851-887 | the cells a neighbour filter picks are exactly the adjacent cells of that kind |
| HumanRules.ProsperityRecorded | Source/EchoAlchemist/Private/WorldMorphing/WorldMorphingSubsystem.cpp:869-875 | a surviving settlement records one prosperity change, its prosperity plus the delta; the 0.6 expansion factor is applied to the local copy only and never reaches the list |
| HumanRules.DecideMines | Source/EchoAlchemist/Private/WorldMorphing/WorldMorphingSubsystem.cpp:857-867 | a mining is recorded iff a Beta neighbour exists, and it empties one of them |
| HumanRules.DecideExpands | Source/EchoAlchemist/Private/WorldMorphing/WorldMorphingSubsystem.cpp:878-902 | a settling is recorded iff the next prosperity exceeds the threshold and a target exists, and it settles one of them |
| HumanRules.DecideMigrates | Source/EchoAlchemist/Private/WorldMorphing/WorldMorphingSubsystem.cpp:905-946 | a migration is recorded iff the next prosperity is below the threshold and the best haven scores above 0; it carries 0.8 of the current prosperity |
| HumanRules.MiningRule | Source/EchoAlchemist/Private/WorldMorphing/WorldMorphingSubsystem.cpp:850-867 | a surviving settlement mines exactly when a Beta cell is adjacent, and mines such a cell |
| HumanRules.ExpansionRule | Source/EchoAlchemist/Private/WorldMorphing/WorldMorphingSubsystem.cpp:877-902 | a surviving settlement expands exactly when its next prosperity exceeds HumanExpansionThreshold and an existing neither-Alpha-nor-Human cell is adjacent (a Beta cell qualifies) |
| HumanRules.MigrationRule | Source/EchoAlchemist/Private/WorldMorphing/WorldMorphingSubsystem.cpp:904-946 | a surviving settlement migrates exactly when its next prosperity is below HumanMigrationThreshold and some existing Empty neighbour scores above 0 |
| HumanChanges.EvaluateSettlement | Source/EchoAlchemist/Private/WorldMorphing/WorldMorphingSubsystem.cpp:814-946 | the loops for one cell record CellChanges |
| HumanChanges.Decided | Source/EchoAlchemist/Private/WorldMorphing/WorldMorphingSubsystem.cpp:830-946 | steps B to E on what the neighbour loops found yield Decide |
| HumanChanges.CollectChanges | Source/EchoAlchemist/Private/WorldMorphing/WorldMorphingSubsystem.cpp:808-948 | step 2 appends every settlement's changes in raster order: the list is AllChanges of the grid as it stood |
| HumanChanges.AllChangesSound | Source/EchoAlchemist/Private/WorldMorphing/WorldMorphingSubsystem.cpp:808-948 | no change aims at an Alpha cell, settling aims only at existing cells, a migration goes from a settlement to an existing Empty cell, and prosperity values are in [0, 100] when the grid's are |
| HumanApply.ApplyChange | Source/EchoAlchemist/Private/WorldMorphing/WorldMorphingSubsystem.cpp:953-985 | one change touches only its own cell (and, for a migration, its destination); a migration changes the grid iff the origin is still Human and the destination still Empty |
| HumanApply.ApplyChanges | Source/EchoAlchemist/Private/WorldMorphing/WorldMorphingSubsystem.cpp:951-986 | the loop applies the changes in list order: ApplyAll |
| HumanApply.ApplyAllKeeps | Source/EchoAlchemist/Private/WorldMorphing/WorldMorphingSubsystem.cpp:951-986 | applying sound changes in order keeps what Kept says and bounded prosperity when the list is tame |
| HumanApply.KeptClean | Source/EchoAlchemist/Private/WorldMorphing/WorldMorphingSubsystem.cpp:951-986 | those changes keep a clean grid clean |
| HumanLayer.SpawnAt | Source/EchoAlchemist/Private/WorldMorphing/WorldMorphingSubsystem.cpp:778-779 | each attempt's cell is a valid coordinate |
| HumanLayer.FirstSpawnIsFirst | Source/EchoAlchemist/Private/WorldMorphing/WorldMorphingSubsystem.cpp:775-791 | the founding is none iff every attempt fails, otherwise the cell of a successful attempt after only failed ones (Attempts > 50 relaxes the temperature test) |
| HumanLayer.Bootstrap | Source/EchoAlchemist/Private/WorldMorphing/WorldMorphingSubsystem.cpp:772-792 | the loop of up to 100 attempts yields Bootstrapped |
| HumanLayer.BootstrapFounds | Source/EchoAlchemist/Private/WorldMorphing/WorldMorphingSubsystem.cpp:772-792 | the founding touches at most one cell, the first successful attempt's, an existing non-Alpha cell that becomes Human with prosperity 50; with no success the grid is unchanged |
| HumanLayer.UpdateHumanLayer | Source/EchoAlchemist/Private/WorldMorphing/WorldMorphingSubsystem.cpp:757-987 | the layer equals HumanStep: with no settlement it founds at most one and stops; otherwise it applies the changes of every settlement in order; no Alpha cell is touched, prosperity in [0, 100] stays so, a clean grid stays clean |
| HumanLayer.HumanStepKeeps | Source/EchoAlchemist/Private/WorldMorphing/WorldMorphingSubsystem.cpp:757-987 | every cell changes at most its state (to Empty or Human) and its prosperity; no Alpha cell is touched |
| RecipeData.FromValueInverts | Source/EchoAlchemist/Public/Alchemy/RecipeData.h:14-78 | reading an enum value back gives the base potion or additive it came from |
| RecipeData.InsertSorted | Source/EchoAlchemist/Public/Alchemy/RecipeData.h:270-286 | inserting into a sorted sequence keeps it sorted |
| RecipeData.SortByValueSorts | Source/EchoAlchemist/Public/Alchemy/RecipeData.h:270-286 | the Sort by enum value orders the copy and keeps every additive with its count |
| RecipeData.SortedUnique | Source/EchoAlchemist/Public/Alchemy/RecipeData.h:270-286 | two sorted sequences with the same multiset of additives are equal |
| RecipeData.Decimal | Source/EchoAlchemist/Public/Alchemy/RecipeData.h:276-283 | the "%d" text of a value, at least one digit long (DecimalRoundTrip reads it back) |
| RecipeData.GenerateRecipeID | Source/EchoAlchemist/Public/Alchemy/RecipeData.h:270-286 | the identifier is "Recipe_<base>" followed by "_<n>" for each additive in ascending enum order, duplicates kept |
| RecipeData.DecimalRoundTrip | Source/EchoAlchemist/Public/Alchemy/RecipeData.h:272-283 | parsing the decimal text gives the value back |
| RecipeData.RecipeIdRoundTrip | Source/EchoAlchemist/Public/Alchemy/RecipeData.h:270-286 | reading an identifier back gives its base potion and its additives in ascending enum order |
| RecipeData.RecipeIdOrderFree | Source/EchoAlchemist/Public/Alchemy/RecipeData.h:270-286 | two inputs get the same identifier iff they have the same base and the same additives with multiplicity, in any order |
| RecipeData.RemoveAll | Source/EchoAlchemist/Public/Alchemy/RecipeData.h:248-260 | TArray::Remove deletes every copy of the element |
| RecipeData.Matches | Source/EchoAlchemist/Public/Alchemy/RecipeData.h:233-261 | false when the base or the count differs; otherwise true iff the required additives are pairwise distinct and the input's additives are a permutation of them |
| RecipeData.MatchesIffSameId | Source/EchoAlchemist/Public/Alchemy/RecipeData.h:233-286 | for a definition with distinct required additives, matching is the same as having the same identifier |
| RecipeData.MatchesIgnoresWorldState | Source/EchoAlchemist/Public/Alchemy/RecipeData.h:233-261 | matching looks at neither the world state nor any other field |
| RecipeRules.CalculateRarity | Source/EchoAlchemist/Private/Alchemy/RecipeSystem.cpp:562-582 | clamp(number of additives + number of Gravity or Teleport additives, 0, 5) |
| RecipeRules.RarityOrderFree | Source/EchoAlchemist/Private/Alchemy/RecipeSystem.cpp:562-582 | the rarity does not depend on the order of the additives |
| RecipeRules.InitialEffects | Source/EchoAlchemist/Private/Alchemy/RecipeSystem.cpp:584-611 | the base potion's effects always hold BaseDamage and Speed |
| RecipeRules.CalculateBaseEffects | Source/EchoAlchemist/Private/Alchemy/RecipeSystem.cpp:584-658 | the loop over the additives yields InfuseAll, then Potency |
| RecipeRules.BaseEffectsClosedForm | Source/EchoAlchemist/Private/Alchemy/RecipeSystem.cpp:584-658 | always BaseDamage, Speed and Potency; Radius only for Explosive; Potency = 1 + 0.2 × Durations; damage × 1.5 per Amplify; speed × 1.5 per Speed and × 0.5 per Slow |
| RecipeRules.BaseEffectsOrderFree | Source/EchoAlchemist/Private/Alchemy/RecipeSystem.cpp:584-658 | the base effects do not depend on the order of the additives |
| RecipeRules.CalculateWorldStateMultiplier | Source/EchoAlchemist/Private/Alchemy/RecipeSystem.cpp:222-257 | 1 + 0.2 for fire damage above 30 degrees + 0.2 for ice damage below 10 + 0.1 × CrystalDensity, each missing key contributing nothing |
| RecipeRules.OneTemperatureBonus | Source/EchoAlchemist/Private/Alchemy/RecipeSystem.cpp:222-257 | the two temperature bonuses never both apply |
| RecipeRules.ScaleEffects | Source/EchoAlchemist/Private/Alchemy/RecipeSystem.cpp:72-84 | the same keys, each value times the multiplier |
| RecipeRules.GenerateDisplayName | Source/EchoAlchemist/Private/Alchemy/RecipeSystem.cpp:414-481 | the base's name, two characters per additive other than None, then "药剂" |
| RecipeRules.DisplayNameShape | Source/EchoAlchemist/Private/Alchemy/RecipeSystem.cpp:414-481 | a display name starts with the base's name, ends with "药剂", and has two characters per non-None additive in between |
| RecipeRules.GenerateDescription | Source/EchoAlchemist/Private/Alchemy/RecipeSystem.cpp:483-560 | the base's description, the additives after "，附加" separated by "、", then "。" |
| RecipeRules.DescriptionSeparators | Source/EchoAlchemist/Private/Alchemy/RecipeSystem.cpp:483-560 | a description with n additives holds exactly max(n − 1, 0) separators "、" |
| Recipes.UsageOf | Source/EchoAlchemist/Private/Alchemy/RecipeSystem.cpp:156-160 | the recorded count, or 0 for an identifier never used |
| Recipes.Used | Source/EchoAlchemist/Private/Alchemy/RecipeSystem.cpp:162-166 | one more use of id: that count rises by one, every other count is unchanged |
| Recipes.Evaluate | Source/EchoAlchemist/Private/Alchemy/RecipeSystem.cpp:41-99 | the identifier is looked up; an unseen one is built by the rules and filed; the output carries that definition's name, description, rarity and scaled effects; the identifier is discovered; bIsNewRecipe iff it was undiscovered before; its usage rises by one |
| Recipes.EvaluateFrame | Source/EchoAlchemist/Private/Alchemy/RecipeSystem.cpp:41-99 | an evaluation files and discovers its identifier, changes no other definition, counts one more use of that identifier and no other, and keeps the library valid |
| Recipes.EvaluateReports | Source/EchoAlchemist/Private/Alchemy/RecipeSystem.cpp:72-84 | the output reports the found definition's name, description, rarity, and its effects under the same keys scaled by the multiplier |
| Recipes.EvaluateAgain | Source/EchoAlchemist/Private/Alchemy/RecipeSystem.cpp:46-69 | evaluating the same combination again, in any order, finds the definition filed the first time and reports it as not new |
| Recipes.EvaluateUnseen | Source/EchoAlchemist/Private/Alchemy/RecipeSystem.cpp:46-69 | a combination never seen is defined by the rules: name, description, rarity and base effects |
| Recipes.Discover | Source/EchoAlchemist/Private/Alchemy/RecipeSystem.cpp:138-154 | an unknown identifier changes nothing and gives false; a known one becomes discovered and gives true |
| Recipes.DiscoverIdempotent | Source/EchoAlchemist/Private/Alchemy/RecipeSystem.cpp:138-154 | discovering twice is discovering once |
| Recipes.Reset | Source/EchoAlchemist/Private/Alchemy/RecipeSystem.cpp:188-199 | nothing discovered, no usage, every definition's flag cleared, every definition kept |
| Recipes.ResetForgets | Source/EchoAlchemist/Private/Alchemy/RecipeSystem.cpp:188-199 | after a reset every identifier reads as undiscovered and unused |
| Recipes.DefaultRecipes | Source/EchoAlchemist/Private/Alchemy/RecipeSystem.cpp:259-412 | the eight default recipes, in the order they are added |
| Recipes.DefaultIdsDistinct | Source/EchoAlchemist/Private/Alchemy/RecipeSystem.cpp:259-412 | the eight default identifiers are distinct |
| Recipes.DefaultsFiled | Source/EchoAlchemist/Private/Alchemy/RecipeSystem.cpp:201-208 | after InitializeRecipes the table holds exactly the eight defaults, each under its own identifier, none discovered |
| Recipes.DefaultFound | Source/EchoAlchemist/Private/Alchemy/RecipeSystem.cpp:46-69 | evaluating a default combination, additives in any order, finds that default instead of defining a new recipe |
| Recipes.RecipeSystem.EvaluateRecipe | Source/EchoAlchemist/Private/Alchemy/RecipeSystem.cpp:41-99 | the method's new state and output are Evaluate of the old library |
| Recipes.RecipeSystem.GetRecipeByID | Source/EchoAlchemist/Private/Alchemy/RecipeSystem.cpp:101-110 | the definition filed under id, or false with the caller's record untouched |
| Recipes.RecipeSystem.GetDiscoveredRecipes | Source/EchoAlchemist/Private/Alchemy/RecipeSystem.cpp:112-115 | each discovered identifier exactly once |
| Recipes.RecipeSystem.GetDiscoveredRecipeDefinitions | Source/EchoAlchemist/Private/Alchemy/RecipeSystem.cpp:117-131 | the definition of each discovered identifier that has one, once each |
| Recipes.RecipeSystem.DiscoverRecipe | Source/EchoAlchemist/Private/Alchemy/RecipeSystem.cpp:138-154 | the new state and result are Discover of the old library |
| Recipes.RecipeSystem.GetRecipeUsageCount | Source/EchoAlchemist/Private/Alchemy/RecipeSystem.cpp:156-160 | UsageOf the counts |
| Recipes.RecipeSystem.IncrementRecipeUsage | Source/EchoAlchemist/Private/Alchemy/RecipeSystem.cpp:162-166 | the library becomes Used |
| Recipes.RecipeSystem.ResetRecipeLibrary | Source/EchoAlchemist/Private/Alchemy/RecipeSystem.cpp:188-199 | the library becomes Reset |
| Recipes.RecipeSystem.InitializeRecipes | Source/EchoAlchemist/Private/Alchemy/RecipeSystem.cpp:201-208 | the table is emptied and refilled with the defaults; discoveries and counts are kept |
| Recipes.RecipeSystem.CreateDefaultRecipes | Source/EchoAlchemist/Private/Alchemy/RecipeSystem.cpp:259-412 | AddRecipe for each default in turn |
| Recipes.RecipeSystem.AddRecipe | Source/EchoAlchemist/Private/Alchemy/RecipeSystem.cpp:210-213 | the recipe is filed under its identifier, replacing any earlier definition |
| Recipes.RecipeSystem.GetAllRecipes | Source/EchoAlchemist/Private/Alchemy/RecipeSystem.cpp:215-220 | every definition once |
| Recipes.RecipeSystem.Get | Source/EchoAlchemist/Private/Alchemy/RecipeSystem.cpp:11-39 | no system without a game instance; otherwise the registered one, or a new one holding the default recipes |
| RecipeBlueprint.EvaluateRecipe | Source/EchoAlchemist/Private/Alchemy/RecipeBlueprintLibrary.cpp:6-15 | a default output without a system, the system's evaluation otherwise |
| RecipeBlueprint.GetDiscoveredRecipes | Source/EchoAlchemist/Private/Alchemy/RecipeBlueprintLibrary.cpp:30-39 | the discovered definitions; none without a system |
| RecipeBlueprint.IsRecipeDiscovered | Source/EchoAlchemist/Private/Alchemy/RecipeBlueprintLibrary.cpp:41-50 | false without a system; the system's answer otherwise |
| RecipeBlueprint.GetRecipeByID | Source/EchoAlchemist/Private/Alchemy/RecipeBlueprintLibrary.cpp:52-61 | the system's lookup; the caller's record is kept on a miss |
| RecipeBlueprint.GetRecipeUsageCount | Source/EchoAlchemist/Private/Alchemy/RecipeBlueprintLibrary.cpp:63-72 | 0 without a system; the system's count otherwise |
| RecipeBlueprint.ResetRecipeLibrary | Source/EchoAlchemist/Private/Alchemy/RecipeBlueprintLibrary.cpp:107-114 | resets the system when there is one |
| RecipeBlueprint.MakeRecipeInput | Source/EchoAlchemist/Private/Alchemy/RecipeBlueprintLibrary.cpp:17-23 | the given base and additives in order, with an empty world state |
| RecipeBlueprint.AddWorldStateParameter | Source/EchoAlchemist/Private/Alchemy/RecipeBlueprintLibrary.cpp:25-28 | the key maps to the value afterwards; every other key and field is unchanged |
| RecipeBlueprint.AddWorldStateOverwrites | Source/EchoAlchemist/Private/Alchemy/RecipeBlueprintLibrary.cpp:25-28 | a later value for the same key replaces the earlier one |
| RecipeBlueprint.AddWorldStateCommutes | Source/EchoAlchemist/Private/Alchemy/RecipeBlueprintLibrary.cpp:25-28 | parameters under different keys can be added in either order |
| RecipeBlueprint.FreshInputUnscaled | Source/EchoAlchemist/Private/Alchemy/RecipeBlueprintLibrary.cpp:17-23 | a fresh input has no world state, so its multiplier is 1 |
| RecipeBlueprint.GetEffectValue | Source/EchoAlchemist/Private/Alchemy/RecipeBlueprintLibrary.cpp:74-78 | the stored value when the key is present, the caller's default otherwise |
| RecipeBlueprint.HasEffect | Source/EchoAlchemist/Private/Alchemy/RecipeBlueprintLibrary.cpp:80-83 | the key is present exactly when GetEffectValue ignores its default, i.e. returns the same value for every default |
| RecipeBlueprint.HasEffectIffDefaultIgnored | Source/EchoAlchemist/Private/Alchemy/RecipeBlueprintLibrary.cpp:74-83 | HasEffect holds iff the default passed to GetEffectValue does not matter |
| RecipeBlueprint.GetBasePotionDisplayName | Source/EchoAlchemist/Private/Alchemy/RecipeBlueprintLibrary.cpp:116-129 | a two-character base name followed by "药剂" |
| RecipeBlueprint.BaseDisplayNameIsPlainRecipe | Source/EchoAlchemist/Private/Alchemy/RecipeBlueprintLibrary.cpp:116-129 | the base's display name is the recipe display name with no (or only None) additives |
| RecipeBlueprint.GetAdditiveDisplayName | Source/EchoAlchemist/Private/Alchemy/RecipeBlueprintLibrary.cpp:131-164 | one character ("无") for None, two characters for every other additive |
| RecipeBlueprint.AdditiveNameInRecipeName | Source/EchoAlchemist/Private/Alchemy/RecipeBlueprintLibrary.cpp:131-164 | a single additive's recipe is named base name + additive name + "药剂" |
| RecipeBlueprint.GetRarityName | Source/EchoAlchemist/Private/Alchemy/RecipeBlueprintLibrary.cpp:187-206 | a two-character name, "未知" exactly for a rarity outside 0..5 |
| RecipeBlueprint.RarityNamesDistinct | Source/EchoAlchemist/Private/Alchemy/RecipeBlueprintLibrary.cpp:187-206 | the six tiers have six different names |
| RecipeBlueprint.EveryRarityNamed | Source/EchoAlchemist/Private/Alchemy/RecipeBlueprintLibrary.cpp:187-206 | every combination's rarity has a tier name |
| RecipeBlueprint.GetRarityColor | Source/EchoAlchemist/Private/Alchemy/RecipeBlueprintLibrary.cpp:166-185 | an opaque colour, white for a rarity outside 0..5 |
| RecipeBlueprint.RarityColorsDistinct | Source/EchoAlchemist/Private/Alchemy/RecipeBlueprintLibrary.cpp:166-185 | the six tiers have six different colours |
| RecipeBlueprint.UnknownRarityLooksCommon | Source/EchoAlchemist/Private/Alchemy/RecipeBlueprintLibrary.cpp:166-206 | an unknown rarity has tier 1's colour but a different name |
| Alchemy.FirstMatchIsFirst | Source/EchoAlchemist/Private/AlchemySystem.cpp:40-59 | a match exists iff some recipe accepts the pair in either order, and it is the earliest such recipe's result |
| Alchemy.FirstMatchSymmetric | Source/EchoAlchemist/Private/AlchemySystem.cpp:43-47 | CombineElements(a, b) and CombineElements(b, a) find the same result |
| Alchemy.BaseCombinations | Source/EchoAlchemist/Private/AlchemySystem.cpp:29-38 | the four starting recipes combine as listed, in both orders |
| Alchemy.AlchemySystem.Initialize | Source/EchoAlchemist/Private/AlchemySystem.cpp:5-16 | the four base elements and the four base recipes |
| Alchemy.AlchemySystem.InitializeElements | Source/EchoAlchemist/Private/AlchemySystem.cpp:18-27 | Fire, Water, Earth, Air filed under their names with power 10 |
| Alchemy.AlchemySystem.InitializeRecipes | Source/EchoAlchemist/Private/AlchemySystem.cpp:29-38 | the base recipes appended in order |
| Alchemy.AlchemySystem.CombineElements | Source/EchoAlchemist/Private/AlchemySystem.cpp:40-59 | on success the first recipe accepting the pair in either order; on failure false with the caller's element untouched |
| Alchemy.AlchemySystem.GetAllElements | Source/EchoAlchemist/Private/AlchemySystem.cpp:61-66 | every filed element once |
| Alchemy.AlchemySystem.GetAllRecipes | Source/EchoAlchemist/Private/AlchemySystem.cpp:68-71 | the recipe list in insertion order |
| PhysicsEffects.RemainingTime | Source/EchoAlchemist/Private/Physics/PhysicsEffectBase.cpp:50-58 | −1 for a permanent effect, otherwise max(0, Duration − ElapsedTime) |
| PhysicsEffects.ExpiredIffNoTimeLeft | Source/EchoAlchemist/Private/Physics/PhysicsEffectBase.cpp:26-58 | an active timed effect is due for removal iff no time remains |
| PhysicsEffects.PermanentExpiresOnlyInactive | Source/EchoAlchemist/Private/Physics/PhysicsEffectBase.cpp:26-41 | a permanent effect is removed only once deactivated |
| PhysicsEffects.Cooled | Source/EchoAlchemist/Private/Physics/WormholeEffect.cpp:84-105 | every cooldown lowered by dt; entries at or below 0 dropped, so every remaining entry is positive |
| PhysicsEffects.MayTeleportAfterCooling | Source/EchoAlchemist/Private/Physics/WormholeEffect.cpp:73-105 | right after cooling, a marble may teleport iff it has no entry left |
| PhysicsEffects.Teleported | Source/EchoAlchemist/Private/Physics/WormholeEffect.cpp:16-65 | cools every entry, then teleports a marble that is at the entrance and may teleport; the marble keeps its identifier |
| PhysicsEffects.WormholeIgnores | Source/EchoAlchemist/Private/Physics/WormholeEffect.cpp:22-31 | a marble away from the entrance or still cooling down is untouched |
| PhysicsEffects.WormholeTeleports | Source/EchoAlchemist/Private/Physics/WormholeEffect.cpp:33-60 | a teleported marble lands on the exit, its velocity scaled by ExitVelocityMultiplier when the direction is preserved, and its cooldown is TeleportCooldown |
| PhysicsEffects.PhysicsEffect.ShouldRemove | Source/EchoAlchemist/Private/Physics/PhysicsEffectBase.cpp:26-41 | an inactive effect is always removed; an active timed effect exactly when no time remains (GetRemainingTime is 0); an active permanent effect (negative duration) never |
| PhysicsEffects.PhysicsEffect.GetRemainingTime | Source/EchoAlchemist/Private/Physics/PhysicsEffectBase.cpp:50-58 | −1 for a permanent effect; otherwise a non-negative time that, added to the elapsed time, reaches the duration, and is 0 exactly when the elapsed time has reached it |
| PhysicsEffects.PhysicsEffect.CanTeleport | Source/EchoAlchemist/Private/Physics/WormholeEffect.cpp:73-81 | a marble without a cooldown entry may teleport; while every kept cooldown is positive, as UpdateCooldowns leaves them, exactly the marbles without an entry may |
| PhysicsEffects.TeleportCoolsDown | Source/EchoAlchemist/Private/Physics/WormholeEffect.cpp:16-105 | a teleported marble is not teleported again while its cooldown lasts |
| PhysicsEffects.SphereByDistance | Source/EchoAlchemist/Private/Physics/VelocityModifierEffect.cpp:60-63 | the squared sphere test is distance ≤ AreaSize.X |
| PhysicsEffects.BoxIsCentred | Source/EchoAlchemist/Private/Physics/VelocityModifierEffect.cpp:65-72 | the box is centred on AreaCenter with full extents AreaSize |
| PhysicsEffects.CylinderByDistance | Source/EchoAlchemist/Private/Physics/VelocityModifierEffect.cpp:74-82 | the cylinder test is XY distance ≤ X and \|Δz\| ≤ Z/2 |
| PhysicsEffects.ModifiedVelocity | Source/EchoAlchemist/Private/Physics/VelocityModifierEffect.cpp:29-42 | Multiply is component-wise, Add adds Value × dt, Set replaces the velocity |
| PhysicsEffects.Modified | Source/EchoAlchemist/Private/Physics/VelocityModifierEffect.cpp:10-54 | outside the area the marble is forgotten, inside it is modified unless already modified during this stay; its identifier and position are kept |
| PhysicsEffects.ModifierOutside | Source/EchoAlchemist/Private/Physics/VelocityModifierEffect.cpp:13-18 | outside the area the velocity is kept and the marble leaves AppliedMarbles |
| PhysicsEffects.ModifierOncePerStay | Source/EchoAlchemist/Private/Physics/VelocityModifierEffect.cpp:21-48 | without ApplyEveryFrame a marble still in the area is not modified a second time |
| PhysicsEffects.ModifierAgainAfterLeaving | Source/EchoAlchemist/Private/Physics/VelocityModifierEffect.cpp:13-48 | after leaving the area and coming back, the marble is modified again |
| PhysicsEffects.Apply | Source/EchoAlchemist/Private/Physics/PhysicsEffectBase.cpp:11-24 | an inactive effect changes nothing; an active one ages by dt before its behaviour runs |
| PhysicsEffects.AgesTowardsExpiry | Source/EchoAlchemist/Private/Physics/PhysicsEffectBase.cpp:11-41 | an active timed effect ages by dt per application, so enough applications expire it |
| PhysicsEffects.PhysicsEffect.constructor | Source/EchoAlchemist/Private/Physics/PhysicsEffectBase.cpp:5-9 | a permanent (duration −1), active, unaged effect under the given identifier; the wormhole and velocity-modifier constructors use their own defaults |
| PhysicsEffects.PhysicsEffect.Reset | Source/EchoAlchemist/Private/Physics/PhysicsEffectBase.cpp:43-48 | elapsed 0, active, a new identifier; a wormhole also clears its cooldowns |
| PhysicsEffects.PhysicsEffect.ApplyEffect | Source/EchoAlchemist/Private/Physics/PhysicsEffectBase.cpp:11-24 | the new state and marble are Apply of the old |
| PhysicsEffects.PhysicsEffect.ApplyWormhole | Source/EchoAlchemist/Private/Physics/WormholeEffect.cpp:16-65 | the new cooldowns and marble are Teleported |
| PhysicsEffects.PhysicsEffect.UpdateCooldowns | Source/EchoAlchemist/Private/Physics/WormholeEffect.cpp:84-105 | the cooldown table becomes Cooled |
| PhysicsEffects.PhysicsEffect.ApplyModifier | Source/EchoAlchemist/Private/Physics/VelocityModifierEffect.cpp:10-54 | the new set and marble are Modified |
| PhysicsManager.Cascade | Source/EchoAlchemist/Private/Physics/PhysicsEffectManager.cpp:117-146 | every active effect in list order sweeps every marble, each seeing the marbles the earlier ones left; the numbers of effects and marbles are kept |
| PhysicsManager.CascadeKeepsIds | Source/EchoAlchemist/Private/Physics/PhysicsEffectManager.cpp:117-146 | every effect keeps its identifier through an update |
| PhysicsManager.SweepInactive | Source/EchoAlchemist/Private/Physics/PhysicsEffectManager.cpp:124-129 | an inactive effect changes neither itself nor any marble |
| PhysicsManager.SweepAges | Source/EchoAlchemist/Private/Physics/PhysicsEffectManager.cpp:131-137 | an active effect ages by dt once per marble, not once per update |
| PhysicsManager.SweepKeepsIds | Source/EchoAlchemist/Private/Physics/PhysicsEffectManager.cpp:131-137 | a sweep keeps every marble's identifier |
| PhysicsManager.OfTypeMembers | Source/EchoAlchemist/Private/Physics/PhysicsEffectManager.cpp:102-115 | GetEffectsByType keeps exactly the effects of the type |
| PhysicsManager.CountActiveBound | Source/EchoAlchemist/Private/Physics/PhysicsEffectManager.cpp:148-165 | the active count never exceeds the number of effects |
| PhysicsManager.UnexpiredSound | Source/EchoAlchemist/Private/Physics/PhysicsEffectManager.cpp:167-187 | nothing kept is due for removal, and everything kept was listed |
| PhysicsManager.RemovingExpired | Source/EchoAlchemist/Private/Physics/PhysicsEffectManager.cpp:167-187 | removing the collected identifiers leaves exactly the unexpired effects |
| PhysicsManager.PhysicsEffectManager.constructor | Source/EchoAlchemist/Private/Physics/PhysicsEffectManager.cpp:5-18 | a new manager is uninitialised and empty |
| PhysicsManager.PhysicsEffectManager.Initialize | Source/EchoAlchemist/Private/Physics/PhysicsEffectManager.cpp:5-18 | empties both collections the first time; a second call changes nothing |
| PhysicsManager.PhysicsEffectManager.Cleanup | Source/EchoAlchemist/Private/Physics/PhysicsEffectManager.cpp:20-27 | both collections emptied and the manager uninitialised |
| PhysicsManager.PhysicsEffectManager.AddEffect | Source/EchoAlchemist/Private/Physics/PhysicsEffectManager.cpp:29-61 | the invalid identifier and no change when uninitialised or given no effect; an already filed identifier is not added twice; otherwise the effect joins the list and the map under its identifier |
| PhysicsManager.PhysicsEffectManager.RemoveEffect | Source/EchoAlchemist/Private/Physics/PhysicsEffectManager.cpp:63-80 | false and no change for an unknown identifier; otherwise the effect leaves both collections |
| PhysicsManager.PhysicsEffectManager.RemoveAllEffects | Source/EchoAlchemist/Private/Physics/PhysicsEffectManager.cpp:82-89 | both collections emptied; initialisation kept |
| PhysicsManager.PhysicsEffectManager.GetEffect | Source/EchoAlchemist/Private/Physics/PhysicsEffectManager.cpp:91-95 | the effect filed under the identifier, or none |
| PhysicsManager.PhysicsEffectManager.GetEffectsByType | Source/EchoAlchemist/Private/Physics/PhysicsEffectManager.cpp:102-115 | the effects of the type, in list order |
| PhysicsManager.PhysicsEffectManager.GetStatistics | Source/EchoAlchemist/Private/Physics/PhysicsEffectManager.cpp:148-165 | total = active + inactive, each listed effect counted once |
| PhysicsManager.PhysicsEffectManager.UpdateEffects | Source/EchoAlchemist/Private/Physics/PhysicsEffectManager.cpp:117-146 | nothing when uninitialised; otherwise the effects and marbles become Cascade, and then no remaining effect is due for removal |
| PhysicsManager.PhysicsEffectManager.RemoveExpiredEffects | Source/EchoAlchemist/Private/Physics/PhysicsEffectManager.cpp:167-187 | the effects due for removal leave both collections, the rest stay in order, and the count removed is returned |
| SpatialGrids.QueryBounds | Source/EchoAlchemist/Private/Physics/SpatialGrid.cpp:51-59 | Query's box: the position widened by the radius on every axis |
| SpatialGrids.SpatialGrid.constructor | Source/EchoAlchemist/Private/Physics/SpatialGrid.cpp:5-17 | on each axis the fewest cells of the given size that cover the bounds (ceil of size / CellSize) |
| SpatialGrids.SpatialGrid.Index | Source/EchoAlchemist/Private/Physics/SpatialGrid.cpp:133-136 | GridToIndex maps a valid coordinate into [0, X × Y × Z), the cell array's range |
| SpatialGrids.SpatialGrid.WorldToGrid | Source/EchoAlchemist/Private/Physics/SpatialGrid.cpp:123-131 | on each axis the chosen cell spans the point: Min + c × CellSize <= p < Min + (c + 1) × CellSize |
| SpatialGrids.SpatialGrid.Clear | Source/EchoAlchemist/Private/Physics/SpatialGrid.cpp:19-22 | no cell is filed afterwards |
| SpatialGrids.SpatialGrid.IndexRange | Source/EchoAlchemist/Private/Physics/SpatialGrid.cpp:133-143 | a valid coordinate's index lies in [0, X·Y·Z) |
| SpatialGrids.SpatialGrid.IndexInjective | Source/EchoAlchemist/Private/Physics/SpatialGrid.cpp:133-143 | two valid coordinates with the same index are equal |
| SpatialGrids.SpatialGrid.WorldToGridCell | Source/EchoAlchemist/Private/Physics/SpatialGrid.cpp:123-131 | the cell WorldToGrid picks spans the point on every axis |
| SpatialGrids.SpatialGrid.GridRange | Source/EchoAlchemist/Private/Physics/SpatialGrid.cpp:145-158 | both corners' cells clamped into [0, dim − 1] on every axis, so with at least one cell per axis both are valid cells |
| SpatialGrids.SpatialGrid.GridRangeOrdered | Source/EchoAlchemist/Private/Physics/SpatialGrid.cpp:145-158 | for a box with ordered corners the range's corners are ordered too |
| SpatialGrids.SpatialGrid.DepositScan | Source/EchoAlchemist/Private/Physics/SpatialGrid.cpp:24-49 | inserting over a range appends the body to exactly the valid cells of the range and files no empty cell |
| SpatialGrids.SpatialGrid.Insert | Source/EchoAlchemist/Private/Physics/SpatialGrid.cpp:24-49 | the body joins the list of every valid cell in its box's range, in loop order; a cell it is first to reach is filed |
| SpatialGrids.SpatialGrid.CollectScan | Source/EchoAlchemist/Private/Physics/SpatialGrid.cpp:61-100 | a query collects distinct identifiers, only bodies of valid cells in the range, and every such body's identifier |
| SpatialGrids.SpatialGrid.QueryBox | Source/EchoAlchemist/Private/Physics/SpatialGrid.cpp:61-100 | the output starts empty and holds every body of the valid cells in range, in loop order, skipping identifiers already taken |
| SpatialGrids.SpatialGrid.Query | Source/EchoAlchemist/Private/Physics/SpatialGrid.cpp:51-59 | QueryBox over the box reaching the radius on every axis |
| SpatialGrids.SpatialGrid.InsertThenQuery | Source/EchoAlchemist/Private/Physics/SpatialGrid.cpp:24-100 | a body inserted over a non-empty box is found again by a query over the same box |
| SpatialGrids.SpatialGrid.ClearedCollectsNothing | Source/EchoAlchemist/Private/Physics/SpatialGrid.cpp:19-22 | after Clear every query finds nothing |
| SpatialGrids.SpatialGrid.GetStatistics | Source/EchoAlchemist/Private/Physics/SpatialGrid.cpp:102-121 | total X·Y·Z, the filed cells counted, the largest list, and, when any cell is filed, the mean TotalBodies / OccupiedCells (the filed lists' lengths summed over their number), which lies in [1, max]; all zero when none is filed |
| SpatialGrids.CellsFor | Source/EchoAlchemist/Private/Physics/SpatialGrid.cpp:10-13 | the fewest cells of the size that cover the length |
| SpatialGrids.AverageBounds | Source/EchoAlchemist/Private/Physics/SpatialGrid.cpp:102-121 | a sum of counts each between 1 and max has a mean between 1 and max |
| EnemyData.IndexOf | Source/EchoAlchemist/Private/Combat/EnemyManager.cpp:365-376 | the position of the first entry with the identifier, or −1 |
| EnemyData.IndexOfIds | Source/EchoAlchemist/Private/Combat/EnemyManager.cpp:365-376 | the search fails iff no entry carries the identifier |
| EnemyData.AliveOf | Source/EchoAlchemist/Private/Combat/EnemyManager.cpp:267-280 | the living entries, in order, never more than the list holds |
| EnemyData.AliveOfMembers | Source/EchoAlchemist/Private/Combat/EnemyManager.cpp:267-280 | the filter keeps exactly the living entries |
| EnemyData.AliveOfIdempotent | Source/EchoAlchemist/Private/Combat/EnemyManager.cpp:227-280 | filtering twice is filtering once |
| EnemyData.NearestUnique | Source/EchoAlchemist/Private/Combat/EnemyManager.cpp:297-322 | the tie rule leaves at most one nearest entry |
| EnemyManagers.MovedInBounds | Source/EchoAlchemist/Private/Combat/EnemyManager.cpp:337-357 | in a circular scene whose enemy circle lies between the walls a moved enemy is never out of bounds |
| EnemyManagers.MovedAngle | Source/EchoAlchemist/Private/Combat/EnemyManager.cpp:337-357 | a moved enemy's angle is its old angle plus the turn, reduced into [0, 2π) |
| EnemyManagers.RingAnglesInTurn | Source/EchoAlchemist/Private/Combat/EnemyManager.cpp:103-126 | the first Count angles i·2π/Count go once round the circle without reaching a full turn |
| EnemyManagers.BatchOnRing | Source/EchoAlchemist/Private/Combat/EnemyManager.cpp:103-126 | in a circular scene enemy k of a batch remembers angle k·2π/Count and stands where SpawnEnemyAtAngle would put it |
| EnemyManagers.BatchSpawnsIssued | Source/EchoAlchemist/Private/Combat/EnemyManager.cpp:103-145 | a batch spawned from the next identifier keeps identifiers issued and distinct |
| EnemyManagers.EnemyManager.constructor | Source/EchoAlchemist/Private/Combat/EnemyManager.cpp:6-11 | no scene, no enemies, the default speeds |
| EnemyManagers.EnemyManager.Initialize | Source/EchoAlchemist/Private/Combat/EnemyManager.cpp:13-20 | the scene is bound and the list emptied |
| EnemyManagers.EnemyManager.SpawnEnemy | Source/EchoAlchemist/Private/Combat/EnemyManager.cpp:22-64 | one active, Idle enemy at full health appended under a new identifier, which is returned |
| EnemyManagers.EnemyManager.SpawnEnemyAtAngle | Source/EchoAlchemist/Private/Combat/EnemyManager.cpp:66-101 | no scene: the invalid identifier and no enemy; otherwise one enemy spawned at the angle's point of the enemy circle (or the plane) |
| EnemyManagers.EnemyManager.SpawnEnemies | Source/EchoAlchemist/Private/Combat/EnemyManager.cpp:103-145 | no scene: nothing; otherwise max(Count, 0) enemies under consecutive identifiers, on the ring at i·2π/Count in a circular scene, each announced |
| EnemyManagers.EnemyManager.UpdateEnemies | Source/EchoAlchemist/Private/Combat/EnemyManager.cpp:147-157 | every active enemy is moved, the others are kept |
| EnemyManagers.EnemyManager.UpdateEnemy | Source/EchoAlchemist/Private/Combat/EnemyManager.cpp:159-181 | one enemy moved as Moved says |
| EnemyManagers.EnemyManager.ApplyDamageToEnemy | Source/EchoAlchemist/Private/Combat/EnemyManager.cpp:183-210 | an unknown identifier changes nothing and gives false; a known one is damaged and the hit announced; a hit that keeps the enemy's identifier keeps the manager valid (identifiers issued and distinct) |
| EnemyManagers.EnemyManager.RemoveEnemy | Source/EchoAlchemist/Private/Combat/EnemyManager.cpp:212-225 | the first enemy with the identifier is taken out and the others keep their order; false and no change when absent |
| EnemyManagers.EnemyManager.RemoveDeadEnemies | Source/EchoAlchemist/Private/Combat/EnemyManager.cpp:227-246 | the living enemies stay, in order, and the number removed is returned |
| EnemyManagers.EnemyManager.ClearAllEnemies | Source/EchoAlchemist/Private/Combat/EnemyManager.cpp:248-253 | the list is empty afterwards |
| EnemyManagers.EnemyManager.FindEnemy | Source/EchoAlchemist/Private/Combat/EnemyManager.cpp:255-265 | the first enemy with the identifier; false with the caller's record untouched otherwise |
| EnemyManagers.EnemyManager.GetAliveEnemies | Source/EchoAlchemist/Private/Combat/EnemyManager.cpp:267-280 | the living enemies, in list order |
| EnemyManagers.EnemyManager.GetAliveEnemyCount | Source/EchoAlchemist/Private/Combat/EnemyManager.cpp:282-295 | the number of living enemies, the length of GetAliveEnemies |
| EnemyManagers.EnemyManager.GetNearestEnemy | Source/EchoAlchemist/Private/Combat/EnemyManager.cpp:297-322 | false iff no enemy is alive; otherwise a living enemy at least as close as every other, the earliest on a tie |
| EnemyManagers.EnemyManager.FindEnemyIndex | Source/EchoAlchemist/Private/Combat/EnemyManager.cpp:365-376 | the first index with the identifier, or −1 |
| CircularScenes.Normalized | Source/EchoAlchemist/Private/Combat/CircularSceneManager.cpp:187-203 | the angle reduced by whole turns, always in [0, 2π) |
| CircularScenes.NormalizedUnique | Source/EchoAlchemist/Private/Combat/CircularSceneManager.cpp:187-203 | the only whole-turn shift of an angle into [0, 2π) is the reduced angle |
| CircularScenes.NormalizedFixes | Source/EchoAlchemist/Private/Combat/CircularSceneManager.cpp:187-203 | an angle already in [0, 2π) is returned unchanged |
| CircularScenes.NormalizeAngle | Source/EchoAlchemist/Private/Combat/CircularSceneManager.cpp:187-203 | the two while loops yield Normalized: in [0, 2π) and a whole number of turns from the input |
| CircularScenes.AngleDifference | Source/EchoAlchemist/Private/Combat/CircularSceneManager.cpp:205-225 | the result lies in [−π, π], and turning Angle1 by it reaches Angle2 up to whole turns |
| CircularScenes.CircularSceneManager.Initialize | Source/EchoAlchemist/Private/Combat/CircularSceneManager.cpp:14-22 | both radii set and EnemyRadius their midpoint, so between them when inner ≤ outer |
| CircularScenes.CircularSceneManager.SetCenter | Source/EchoAlchemist/Private/Combat/CircularSceneManager.cpp:24-30 | only the centre changes |
| CircularScenes.CircularSceneManager.Advance | Source/EchoAlchemist/Private/Combat/CircularSceneManager.cpp:32-42 | position + velocity × dt, the centre cancelling; the velocity is kept |
| CircularScenes.CircularSceneManager.ApplyEnvironmentalForces | Source/EchoAlchemist/Private/Combat/CircularSceneManager.cpp:78-84 | the velocity is unchanged |
| CircularScenes.CircularSceneManager.OutOfBoundsByDistance | Source/EchoAlchemist/Private/Combat/CircularSceneManager.cpp:66-76 | out of bounds iff the planar distance from the centre is above OuterRadius or below InnerRadius |
| CircularScenes.CircularSceneManager.IsOutOfBounds | Source/EchoAlchemist/Private/Combat/CircularSceneManager.cpp:66-76 | a point farther from the centre than the outer radius is out of bounds; a point on the enemy circle, when that circle lies between the walls, is not |
| CircularScenes.CircularSceneManager.GetEnemyPosition | Source/EchoAlchemist/Private/Combat/CircularSceneManager.cpp:166-176 | the point of the enemy circle at the reduced angle |
| CircularScenes.CircularSceneManager.EnemyInBounds | Source/EchoAlchemist/Private/Combat/CircularSceneManager.cpp:66-176 | an enemy on a circle between the walls is never out of bounds |
| CircularScenes.CircularSceneManager.UpdateEnemyAngle | Source/EchoAlchemist/Private/Combat/CircularSceneManager.cpp:178-185 | NormalizeAngle(current + ω·dt) |
| FallingScenes.FallingSceneManager.constructor | Source/EchoAlchemist/Private/Combat/FallingSceneManager.cpp:5-11 | 800 by 600, gravity −980 along Z, bounce coefficient 0.8 |
| FallingScenes.FallingSceneManager.Initialize | Source/EchoAlchemist/Private/Combat/FallingSceneManager.cpp:13-17 | only the scene size changes |
| FallingScenes.FallingSceneManager.SetGravity | Source/EchoAlchemist/Private/Combat/FallingSceneManager.cpp:19-22 | only the gravity changes |
| FallingScenes.FallingSceneManager.IsOutOfBounds | Source/EchoAlchemist/Private/Combat/FallingSceneManager.cpp:47-54 | out of bounds exactly when clamping X into [−Width/2, Width/2] or Z into [−Height/2, Height/2] would move the point |
| FallingScenes.FallingSceneManager.ApplyEnvironmentalForces | Source/EchoAlchemist/Private/Combat/FallingSceneManager.cpp:56-60 | the velocity changes by gravity × dt and nothing else: taking gravity × dt back off restores it |
| FallingScenes.FallingSceneManager.GravitySteps | Source/EchoAlchemist/Private/Combat/FallingSceneManager.cpp:56-60 | two gravity steps are one step of the summed time; a zero step changes nothing |
| FallingScenes.FallingSceneManager.HandleBoundaryInteraction | Source/EchoAlchemist/Private/Combat/FallingSceneManager.cpp:62-90 | a violated axis is clamped to its wall and that velocity becomes −v × BounceCoefficient; Y is untouched; an in-bounds position is unchanged; afterwards the position is in bounds |
| FallingScenes.FallingSceneManager.HandleIdempotent | Source/EchoAlchemist/Private/Combat/FallingSceneManager.cpp:62-90 | handling the boundary twice is handling it once |
| FallingScenes.FallingSceneManager.Advance | Source/EchoAlchemist/Private/Combat/FallingSceneManager.cpp:24-34 | move by the pre-gravity velocity, add gravity, then the walls; the result is in bounds |
| FallingScenes.FallingSceneManager.AdvanceInside | Source/EchoAlchemist/Private/Combat/FallingSceneManager.cpp:24-34 | a step inside the walls is plain motion under gravity |
| FallingScenes.FallingSceneManager.BounceDamps | Source/EchoAlchemist/Private/Combat/FallingSceneManager.cpp:67-89 | with a coefficient in [0, 1] a bounce never speeds a body up along the wall's axis |
| SceneBase.ScreenRoundTrip | Source/EchoAlchemist/Private/Combat/SceneManagerBase.cpp:10-20 | WorldToScreen and ScreenToWorld undo each other |
| SceneBase.WorldToScreen | Source/EchoAlchemist/Private/Combat/SceneManagerBase.cpp:10-14 | ScreenToWorld undoes it |
| SceneBase.ScreenToWorld | Source/EchoAlchemist/Private/Combat/SceneManagerBase.cpp:16-20 | the default mapping moves no point |
| SceneBase.ApplyBounceCoefficient | Source/EchoAlchemist/Private/Combat/SceneManagerBase.cpp:29-32 | the squared speed is scaled by k², and for k ≠ 0 scaling back by 1/k restores the velocity |
| SceneBase.BounceNegatesNormal | Source/EchoAlchemist/Private/Combat/SceneManagerBase.cpp:22-27 | against a unit normal the normal component of V − 2(V·N)N is negated |
| SceneBase.BounceKeepsTangent | Source/EchoAlchemist/Private/Combat/SceneManagerBase.cpp:22-27 | the tangential part is kept |
| SceneBase.BounceKeepsSpeed | Source/EchoAlchemist/Private/Combat/SceneManagerBase.cpp:22-27 | the speed is kept |
| SceneBase.BounceTwice | Source/EchoAlchemist/Private/Combat/SceneManagerBase.cpp:22-27 | reflecting twice gives the velocity back |
| SceneBase.CoefficientScalesSpeed | Source/EchoAlchemist/Private/Combat/SceneManagerBase.cpp:29-32 | scaling by k scales the squared speed by k², so a coefficient in [0, 1] never speeds a body up |
| PerlinNoises.Iota | Source/EchoAlchemist/Private/WorldMorphing/PerlinNoise.cpp:11-14 | the values 0..n−1 in order |
| PerlinNoises.SwappedPermutes | Source/EchoAlchemist/Private/WorldMorphing/PerlinNoise.cpp:19-23 | a swap keeps the multiset of entries |
| PerlinNoises.ShufflePermutes | Source/EchoAlchemist/Private/WorldMorphing/PerlinNoise.cpp:17-24 | whatever the draws, the Fisher–Yates rounds only rearrange the entries |
| PerlinNoises.TableEntries | Source/EchoAlchemist/Private/WorldMorphing/PerlinNoise.cpp:8-31 | every entry of the table lies in [0, 255] and each of 0..255 occurs once in each half |
| PerlinNoises.PerlinNoise.constructor | Source/EchoAlchemist/Private/WorldMorphing/PerlinNoise.cpp:5-32 | a 512-entry table whose halves are the same shuffle of 0..255, entry i + 256 equal to entry i |
| PerlinNoises.Fade | Source/EchoAlchemist/Private/WorldMorphing/PerlinNoise.cpp:80-84 | the quintic 6t⁵ − 15t⁴ + 10t³ is 0 at t = 0 and 1 at t = 1 |
| PerlinNoises.Lerp | Source/EchoAlchemist/Private/WorldMorphing/PerlinNoise.cpp:86-89 | a at t = 0 and b at t = 1 |
| PerlinNoises.LerpBetween | Source/EchoAlchemist/Private/WorldMorphing/PerlinNoise.cpp:86-89 | for t in [0, 1] the blend lies between its ends |
| PerlinNoises.Grad | Source/EchoAlchemist/Private/WorldMorphing/PerlinNoise.cpp:91-98 | the low two bits choose ±x ± y, so \|Grad\| ≤ \|x\| + \|y\| |
| PerlinNoises.GradTable | Source/EchoAlchemist/Private/WorldMorphing/PerlinNoise.cpp:91-98 | the four gradients for low bits 0..3 |
| PerlinNoises.Cell | Source/EchoAlchemist/Private/WorldMorphing/PerlinNoise.cpp:37-38 | FloorToInt(x) & 255 lies in [0, 255] |
| PerlinNoises.CornerIndices | Source/EchoAlchemist/Private/WorldMorphing/PerlinNoise.cpp:37-53 | every table read Generate makes lies in [0, 511] |
| PerlinNoises.NoiseAtLattice | Source/EchoAlchemist/Private/WorldMorphing/PerlinNoise.cpp:34-60 | at a lattice point the noise is exactly one half |
| PerlinNoises.NoisePeriodic | Source/EchoAlchemist/Private/WorldMorphing/PerlinNoise.cpp:34-60 | the noise repeats every 256 cells along each axis |
| PerlinNoises.PerlinNoise.Generate | Source/EchoAlchemist/Private/WorldMorphing/PerlinNoise.cpp:34-60 | the noise of the object's table is exactly one half at every lattice point |
| PerlinNoises.AmplitudeClosedForm | Source/EchoAlchemist/Private/WorldMorphing/PerlinNoise.cpp:62-78 | (1 − p) × MaxValue = 1 − pⁿ, the geometric sum of the amplitudes used |
| PerlinNoises.FbmBetween | Source/EchoAlchemist/Private/WorldMorphing/PerlinNoise.cpp:62-78 | dividing by MaxValue normalises: for at least one octave and a non-negative persistence the result lies within the range of the octaves' samples |
| PerlinNoises.PerlinNoise.GenerateFBM | Source/EchoAlchemist/Private/WorldMorphing/PerlinNoise.cpp:62-78 | None for no octaves (division by zero); otherwise the weighted octave sum divided by MaxValue = 1 + p + … + pⁿ⁻¹ |
| ShapeGenerators.RasterIndex | Source/EchoAlchemist/Private/PCG/ShapeGenerator.cpp:12-22 | an in-range cell's index Y·Width + X lies in the grid and gives the cell back |
| ShapeGenerators.NeighbourCountIsEight | Source/EchoAlchemist/Private/PCG/ShapeGenerator.cpp:29-42 | the count is the number of live in-bounds cells among the eight neighbours, in [0, 8] |
| ShapeGenerators.NeighbourCountLocal | Source/EchoAlchemist/Private/PCG/ShapeGenerator.cpp:29-42 | grids that agree on the eight neighbours give the same count |
| ShapeGenerators.NextCellRule | Source/EchoAlchemist/Private/PCG/ShapeGenerator.cpp:44-52 | alive afterwards iff alive with at least SurvivalThreshold neighbours, or dead with more than BirthThreshold |
| ShapeGenerators.StepAt | Source/EchoAlchemist/Private/PCG/ShapeGenerator.cpp:24-55 | each cell after an iteration follows the rules on its neighbours in the previous grid |
| ShapeGenerators.StepLocal | Source/EchoAlchemist/Private/PCG/ShapeGenerator.cpp:24-55 | an iteration reads only the previous grid |
| ShapeGenerators.IterateNext | Source/EchoAlchemist/Private/PCG/ShapeGenerator.cpp:24-55 | iteration n + 1 is one more step after iteration n |
| ShapeGenerators.Fill | Source/EchoAlchemist/Private/PCG/ShapeGenerator.cpp:12-22 | cell k alive iff the k-th draw is below one half |
| ShapeGenerators.FillGrid | Source/EchoAlchemist/Private/PCG/ShapeGenerator.cpp:12-22 | the fill loop yields Fill |
| ShapeGenerators.CountNeighbours | Source/EchoAlchemist/Private/PCG/ShapeGenerator.cpp:29-42 | the inner double loop counts the live in-bounds neighbours |
| ShapeGenerators.StepGrid | Source/EchoAlchemist/Private/PCG/ShapeGenerator.cpp:24-55 | NextGrid starts as a copy, each cell is updated from the unchanged grid: Step |
| ShapeGenerators.GenerateShapeWithCellularAutomata | Source/EchoAlchemist/Private/PCG/ShapeGenerator.cpp:4-59 | Width and Height as given, Width·Height cells, equal to the fill after max(Iterations, 0) iterations |
| PaletteGenerators.AlphaInUnit | Source/EchoAlchemist/Private/PCG/PaletteGenerator.cpp:13-14 | colour fractions lie in [0, 1], from 0 for the first to 1 for the last |
| PaletteGenerators.SpectrumPos | Source/EchoAlchemist/Private/PCG/PaletteGenerator.cpp:13-17 | a colour's spectrum position: a valid spectrum index and a blend fraction in [0, 1) |
| PaletteGenerators.GeneratePaletteFromSpectrum | Source/EchoAlchemist/Private/PCG/PaletteGenerator.cpp:3-22 | empty for an empty spectrum or NumColors ≤ 0; otherwise NumColors colours, colour i the blend at its spectrum position |
| PaletteGenerators.SpectrumEnds | Source/EchoAlchemist/Private/PCG/PaletteGenerator.cpp:13-17 | the first colour blends from Spectrum[0] and the last from Spectrum[n − 1], each with fraction 0 |
| PaletteGenerators.SpectrumIndexMonotone | Source/EchoAlchemist/Private/PCG/PaletteGenerator.cpp:13-17 | later colours never sample an earlier part of the spectrum |
| PaletteGenerators.GenerateMonochromaticPalette | Source/EchoAlchemist/Private/PCG/PaletteGenerator.cpp:24-45 | empty for NumColors ≤ 0; otherwise NumColors colours of the base hue with saturation and value blended across the ranges (0.5 for one colour) |
| PaletteGenerators.MonoEnds | Source/EchoAlchemist/Private/PCG/PaletteGenerator.cpp:24-45 | saturation and value start at the range's X and end at its Y; a single colour takes the middle |
| PaletteGenerators.MonoEvenSteps | Source/EchoAlchemist/Private/PCG/PaletteGenerator.cpp:24-45 | consecutive colours are evenly spaced |
| PaletteGenerators.MonoWithinRange | Source/EchoAlchemist/Private/PCG/PaletteGenerator.cpp:24-45 | every saturation and value lies between its range's ends |
| AppearanceAssemblers.FirstWhereIsFirst | Source/EchoAlchemist/Private/PCG/AppearanceAssembler.cpp:6-53 | a row is found iff some row passes, and it is the first that does |
| AppearanceAssemblers.SkeletonFails | Source/EchoAlchemist/Private/PCG/AppearanceAssembler.cpp:6-53 | SelectSkeleton fails iff the table is null, or no row has the habitat and the first row is missing |
| AppearanceAssemblers.SkeletonPrefersExact | Source/EchoAlchemist/Private/PCG/AppearanceAssembler.cpp:17-28 | when some row matches habitat and size, the choice is the first such row |
| AppearanceAssemblers.SkeletonPrefersHabitat | Source/EchoAlchemist/Private/PCG/AppearanceAssembler.cpp:29-37 | failing that, the first row with the habitat |
| AppearanceAssemblers.SkeletonKeepsHabitat | Source/EchoAlchemist/Private/PCG/AppearanceAssembler.cpp:17-37 | whenever some row has the habitat, the chosen skeleton has it |
| AppearanceAssemblers.SkeletonFallsBack | Source/EchoAlchemist/Private/PCG/AppearanceAssembler.cpp:38-50 | with no row of the habitat, the first row of the table |
| AppearanceAssemblers.SelectSkeleton | Source/EchoAlchemist/Private/PCG/AppearanceAssembler.cpp:6-53 | habitat and size, then habitat, then all rows; the first of them if non-null |
| AppearanceAssemblers.SelectedPartsCount | Source/EchoAlchemist/Private/PCG/AppearanceAssembler.cpp:55-86 | at most one part per PartID, exactly one per ID when every ID is in the table |
| AppearanceAssemblers.SelectedPartsFromTable | Source/EchoAlchemist/Private/PCG/AppearanceAssembler.cpp:55-86 | a null table selects nothing; every selected part is a row whose PartID some trait asks for |
| AppearanceAssemblers.SelectParts | Source/EchoAlchemist/Private/PCG/AppearanceAssembler.cpp:55-86 | for each trait and each of its part IDs in order, the first row with that PartID |
| AppearanceAssemblers.PaletteAlwaysFound | Source/EchoAlchemist/Private/PCG/AppearanceAssembler.cpp:88-151 | any non-null table gives a palette of the requested habitat |
| AppearanceAssemblers.GetPaletteForHabitat | Source/EchoAlchemist/Private/PCG/AppearanceAssembler.cpp:88-151 | the first row of the habitat, else the habitat's built-in palette; none for a null table |
| AppearanceAssemblers.SizeMultiplier | Source/EchoAlchemist/Private/PCG/AppearanceAssembler.cpp:188-212 | a positive factor for every size class (0.5, 0.75, 1, 1.5, 2.5 for Tiny through Giant) |
| AppearanceAssemblers.MultiplierIncreasing | Source/EchoAlchemist/Private/PCG/AppearanceAssembler.cpp:188-212 | the multiplier grows strictly with the size class |
| AppearanceAssemblers.ScaleMonotone | Source/EchoAlchemist/Private/PCG/AppearanceAssembler.cpp:188-212 | for a non-negative base scale a larger class never gives a smaller monster, and Medium keeps the base scale |
| AppearanceAssemblers.GetAnchorPointLocation | Source/EchoAlchemist/Private/PCG/AppearanceAssembler.cpp:174-186 | the zero vector for a name that is not one of the default anchors |
| AppearanceAssemblers.AnchorKnownIffNonZero | Source/EchoAlchemist/Private/PCG/AppearanceAssembler.cpp:174-228 | the location is non-zero iff the name is one of the seven defaults, whatever the skeleton |
| UnrealMath.Clamp | Source/EchoAlchemist/Private/WorldMorphing/WorldMorphingSubsystem.cpp:254 | FMath::Clamp: min if below, max if above, the value otherwise |
| UnrealMath.CRem | Source/EchoAlchemist/Private/WorldMorphing/WorldMorphingSubsystem.cpp:465 | C++'s % truncates towards zero, so the remainder takes the dividend's sign |
| UnrealMath.DistPredicates | Source/EchoAlchemist/Private/Combat/CircularSceneManager.cpp:66-76 | comparing squared distances is comparing the distances |
| ClimateLayer.ClimateStep | Source/EchoAlchemist/Private/WorldMorphing/WorldMorphingSubsystem.cpp:462-546 | one climate tick as a value: the seasonal first pass, then the storm pass, on a grid of the same shape |
| MantleBoundary.BoundaryResult | Source/EchoAlchemist/Private/WorldMorphing/WorldMorphingSubsystem.cpp:385-458 | the boundary pass as a value: every cell decided in raster order on the grid as it is being changed, on a grid of the same shape |
| CrystalUpdate.CrystalStep | Source/EchoAlchemist/Private/WorldMorphing/WorldMorphingSubsystem.cpp:549-754 | one crystal tick as a value: absorb, share, transitions, final copy, on a grid of the same shape |
| HumanLayer.HumanStep | Source/EchoAlchemist/Private/WorldMorphing/WorldMorphingSubsystem.cpp:757-987 | one human tick as a value: bootstrap when there is no settlement, otherwise collect every settlement's changes and apply them |
| WorldMorphing.WorldMorphingSubsystem.Configure | Source/EchoAlchemist/Private/WorldMorphing/WorldMorphingSubsystem.cpp:30-38 | the size, the parameters and the noise offsets are set |
| WorldMorphing.WorldMorphingSubsystem.Commit | Source/EchoAlchemist/Private/WorldMorphing/WorldMorphingSubsystem.cpp:91-101 | the counters, grid and supply points take the tick's results; size, parameters and offsets are kept |
| Recipes.RecipeSystem.constructor | Source/EchoAlchemist/Private/Alchemy/RecipeSystem.cpp:7-9 | an empty library: no definitions, nothing discovered, no usage |
| Recipes.RecipeSystem.FindOrDefine | Source/EchoAlchemist/Private/Alchemy/RecipeSystem.cpp:46-69 | the filed definition, or a new one built by the rules, and it is filed under its identifier |
| Recipes.RecipeSystem.MarkDiscovered | Source/EchoAlchemist/Private/Alchemy/RecipeSystem.cpp:86-96 | the identifier joins the discovered set and its definition is filed with its flag set |
| Recipes.RecipeSystem.IsRecipeDiscovered | Source/EchoAlchemist/Private/Alchemy/RecipeSystem.cpp:133-136 | true exactly for a discovered identifier |
| Alchemy.AlchemySystem.constructor | Source/EchoAlchemist/Private/AlchemySystem.cpp:5-16 | no elements and no recipes before Initialize |
| PhysicsEffects.Internal | Source/EchoAlchemist/Private/Physics/PhysicsEffectBase.cpp:60-64 | the behaviour of an effect changes only its own cooldowns or applied set, and keeps the marble's identifier |
| PhysicsEffects.PhysicsEffect.SetActive | Source/EchoAlchemist/Private/Physics/PhysicsEffectBase.cpp:26-41 | only the active flag changes |
| PhysicsManager.States | Source/EchoAlchemist/Private/Physics/PhysicsEffectManager.cpp:117-146 | the states of the listed effects, one per effect |
| PhysicsManager.Sweep | Source/EchoAlchemist/Private/Physics/PhysicsEffectManager.cpp:131-137 | one effect applied to every marble in turn, each with its own scatter draw; the number of marbles is kept |
| PhysicsManager.ExpiredIdsMembers | Source/EchoAlchemist/Private/Physics/PhysicsEffectManager.cpp:167-187 | the collected identifiers are exactly those of effects due for removal |
| PhysicsManager.PhysicsEffectManager.ApplyAll | Source/EchoAlchemist/Private/Physics/PhysicsEffectManager.cpp:122-139 | the effects' states and the marble array become Cascade of the old ones |
| PhysicsManager.PhysicsEffectManager.CollectExpired | Source/EchoAlchemist/Private/Physics/PhysicsEffectManager.cpp:169-177 | ExpiredToRemove: the identifiers of the effects due for removal, in list order |
| PhysicsManager.PhysicsEffectManager.RemoveIds | Source/EchoAlchemist/Private/Physics/PhysicsEffectManager.cpp:179-184 | each collected identifier is removed from the list and the map |
| SpatialGrids.BodiesInRemove | Source/EchoAlchemist/Private/Physics/SpatialGrid.cpp:110-117 | the sum of the filed lists' lengths does not depend on the order the cells are visited in, so the unordered TMap walk computes it |
| SpatialGrids.SpatialGrid.FileRange | Source/EchoAlchemist/Private/Physics/SpatialGrid.cpp:36-48 | the triple loop deposits the body in every valid cell of the range |
| SpatialGrids.SpatialGrid.CollectRange | Source/EchoAlchemist/Private/Physics/SpatialGrid.cpp:71-97 | the triple loop collects the bodies of the range, skipping identifiers already taken |
| EnemyData.AppendIssued | Source/EchoAlchemist/Private/Combat/EnemyManager.cpp:22-64 | appending an enemy under the next identifier keeps every identifier issued and distinct |
| EnemyData.RemoveAtIssued | Source/EchoAlchemist/Private/Combat/EnemyManager.cpp:212-246 | taking an enemy out keeps the identifiers issued and distinct, and its identifier is gone |
| EnemyManagers.Moved | Source/EchoAlchemist/Private/Combat/EnemyManager.cpp:159-181 | moving an enemy keeps its identifier, health and activity |
| EnemyManagers.MovedOnRing | Source/EchoAlchemist/Private/Combat/EnemyManager.cpp:337-357 | in a circular scene a moved enemy stands on the enemy circle at its old angle plus the turn |
| EnemyManagers.BatchSpawns | Source/EchoAlchemist/Private/Combat/EnemyManager.cpp:103-145 | the enemies of a batch, one per index |
| EnemyManagers.SpawnEvents | Source/EchoAlchemist/Private/Combat/EnemyManager.cpp:103-145 | one spawn event per enemy of a batch, with consecutive identifiers |
| EnemyManagers.EnemyManager.SpawnOnCircle | Source/EchoAlchemist/Private/Combat/EnemyManager.cpp:66-101 | in a circular scene the enemy is appended under the next identifier at the angle's point of the enemy circle, and announced |
| EnemyManagers.EnemyManager.SpawnOnRing | Source/EchoAlchemist/Private/Combat/EnemyManager.cpp:103-126 | in a circular scene max(Count, 0) enemies under consecutive identifiers |
| EnemyManagers.EnemyManager.SpawnScattered | Source/EchoAlchemist/Private/Combat/EnemyManager.cpp:127-142 | in any other scene max(Count, 0) enemies under consecutive identifiers |
| EnemyManagers.EnemyManager.BroadcastEnemyEvent | Source/EchoAlchemist/Private/Combat/EnemyManager.cpp:324-327 | the event is appended to the event log and nothing else changes |
| CircularScenes.NormalizedShift | Source/EchoAlchemist/Private/Combat/CircularSceneManager.cpp:187-203 | whole turns added to an angle do not change its reduced angle |
| CircularScenes.NormalizedTurns | Source/EchoAlchemist/Private/Combat/CircularSceneManager.cpp:187-203 | an angle is its reduced angle plus a whole number of turns |
| CircularScenes.RingPointPeriodic | Source/EchoAlchemist/Private/Combat/CircularSceneManager.cpp:166-176 | a point of the enemy circle does not change when the angle moves by whole turns |
| CircularScenes.CircularSceneManager.constructor | Source/EchoAlchemist/Private/Combat/CircularSceneManager.cpp:5-12 | centre at the origin, radii 300 and 500, enemies on radius 400 |
| CircularScenes.CircularSceneManager.RadiusSquared | Source/EchoAlchemist/Private/Combat/CircularSceneManager.cpp:66-76 | the squared planar distance from the centre, never negative |
| FallingScenes.DampedAbs | Source/EchoAlchemist/Private/Combat/FallingSceneManager.cpp:67-89 | a bounce factor in [0, 1] never enlarges a velocity component |
| PerlinNoises.IotaOnce | Source/EchoAlchemist/Private/WorldMorphing/PerlinNoise.cpp:11-14 | each of 0..n−1 occurs exactly once in the initial table, nothing else occurs |
| PerlinNoises.FillIota | Source/EchoAlchemist/Private/WorldMorphing/PerlinNoise.cpp:11-14 | the fill loop writes 0..n−1 in order |
| PerlinNoises.ShuffleInPlace | Source/EchoAlchemist/Private/WorldMorphing/PerlinNoise.cpp:17-24 | the in-place Fisher–Yates loop leaves the array as Shuffle of its old contents |
| PerlinNoises.Duplicate | Source/EchoAlchemist/Private/WorldMorphing/PerlinNoise.cpp:27-31 | a 512-entry table whose entries i and i + 256 both equal entry i of the shuffle |
| PerlinNoises.Amplitudes | Source/EchoAlchemist/Private/WorldMorphing/PerlinNoise.cpp:62-78 | the amplitudes 1, p, p², …, one per octave |
| PerlinNoises.AmplitudesPositive | Source/EchoAlchemist/Private/WorldMorphing/PerlinNoise.cpp:62-78 | for a non-negative persistence no amplitude is negative and MaxValue is at least 1 |
| PerlinNoises.PerlinNoise.Octave | Source/EchoAlchemist/Private/WorldMorphing/PerlinNoise.cpp:68-75 | one octave of the loop: the sample is the next octave's Generate at the current frequency (SampledSoFar), Total gains sample × Amplitude, MaxValue gains Amplitude, Amplitude is multiplied by Persistence and Frequency doubled |
| ShapeGenerators.Step | Source/EchoAlchemist/Private/PCG/ShapeGenerator.cpp:24-55 | one iteration keeps the grid's size |
| ShapeGenerators.Iterate | Source/EchoAlchemist/Private/PCG/ShapeGenerator.cpp:24-55 | the iterations keep the grid's size |
| PaletteGenerators.Position | Source/EchoAlchemist/Private/PCG/PaletteGenerator.cpp:13-17 | Alpha × (n − 1) split into an index below n and a fraction in [0, 1) |
| PaletteGenerators.AlphaMonotone | Source/EchoAlchemist/Private/PCG/PaletteGenerator.cpp:13-14 | later colours have a larger blend fraction |
| AppearanceAssemblers.DefaultPalette | Source/EchoAlchemist/Private/PCG/AppearanceAssembler.cpp:109-148 | the built-in palette of a habitat belongs to that habitat and is opaque |
| UnrealMath.FloorToInt | Source/EchoAlchemist/Private/WorldMorphing/PerlinNoise.cpp:37 | FMath::FloorToInt: the greatest integer not above x |
| UnrealMath.CeilToInt | Source/EchoAlchemist/Private/Physics/SpatialGrid.cpp:10-13 | FMath::CeilToInt: the least integer not below x |
| UnrealMath.ClampInt | Source/EchoAlchemist/Private/Physics/SpatialGrid.cpp:145-158 | integer FMath::Clamp: min if below, max if above, the value otherwise |
| UnrealMath.Frac | Source/EchoAlchemist/Private/WorldMorphing/PerlinNoise.cpp:40-41 | the fractional part, in [0, 1) |

## Left out

- WorldMorphing.WorldMorphingSubsystem.InitializeWorld: requires a non-negative width and height. The engine accepts any int32, but a negative size makes `TArray::SetNum` fail an engine assertion, so the model does not follow that case.
- WorldMorphing.WorldMorphingSubsystem.TickSimulation: requires `MaxSearchDist(p) < MaxInt32`, i.e. EdgeGenerationOffset + EdgeGenerationWidth + 1 below MAX_int32. The breadth-first search uses MAX_int32 as its "not reached" mark, and a search bound at or above it would make a reached distance indistinguishable from that mark.
- MantleLayer.UpdateMantleLayer: requires `MaxSearchDist(p) < MaxInt32`, for the same reason as TickSimulation.
- MantleLayer.InjectStage: requires `MaxSearchDist(p) < MaxInt32`, for the same reason.
- MantleLayer.MantleStep: requires `MaxSearchDist(p) < MaxInt32`, for the same reason.
- MantleLayer.InjectedGrid: requires `MaxSearchDist(p) < MaxInt32`, for the same reason.
- MantleLayer.MantleStepKeeps: requires `MaxSearchDist(p) < MaxInt32`, for the same reason.
- EdgeDistance.EdgeDistances: requires a search bound below MAX_int32, for the same reason.
- WorldMorphing.Tick: requires `MaxSearchDist(p) < MaxInt32`, for the same reason.
- WorldMorphing.RunLayers: requires `MaxSearchDist(p) < MaxInt32`, for the same reason.
- WorldMorphing.WorldMorphingSubsystem.TickSimulation: TimeStep and CycleCount are unbounded integers. The int32 wrap-around after 2^31 - 1 ticks is not modelled.
- SpatialGrids.SpatialGrid.Index: GridToIndex is exact integer arithmetic. An int32 overflow of X + Y·GridSizeX + Z·GridSizeX·GridSizeY on a very large grid is not modelled.
- SpatialGrids.SpatialGrid.constructor: the cell size has type `CellSize`, a positive real. The engine does not reject a zero or negative cell size; with one, every grid dimension and coordinate is a division by zero or negative, which the model does not follow.
- EnemyManagers.EnemyManager.SpawnEnemyAtAngle: requires `IdsBelow(enemies, nextGuid)`, i.e. every listed identifier lies below the next one issued. The engine's `FGuid::NewGuid` is fresh by construction. The model issues identifiers from a counter, and this invariant is what makes them fresh. The same holds for SpawnOnCircle and SpawnOnRing.
- EnemyManagers.EnemyManager.SpawnOnCircle: requires `IdsBelow`, as SpawnEnemyAtAngle.
- EnemyManagers.EnemyManager.SpawnOnRing: requires `IdsBelow`, as SpawnEnemyAtAngle.
- EnemyManagers.EnemyManager.GetNearestEnemy: the search starts from FLT_MAX in the engine, so a living enemy at a distance of FLT_MAX or more (or at a NaN distance) is never chosen. With reals, the model always finds the nearest living enemy.
- ShapeGenerators.GenerateShapeWithCellularAutomata: requires a non-negative width and height (a negative size fails `TArray::SetNum`). Width·Height is not reduced to int32, so an overflowing product is not modelled.
- Alchemy.AlchemySystem.CombineElements: element names are compared exactly. The engine's FString comparison ignores case.
- AppearanceAssemblers.GetAnchorPointLocation: anchor and part names are compared exactly. The engine's FName comparison ignores case. The same holds for SelectParts.
- AppearanceAssemblers.SelectParts: part identifiers are compared exactly. FName comparison in the engine ignores case.
- RecipeRules.CalculateWorldStateMultiplier: the world-state keys "Temperature" and "CrystalDensity" are looked up exactly, so a key such as "temperature" gives no bonus here but does in the engine. The engine keys these maps and sets by FString, whose hashing and comparison ignore case; the model compares strings exactly.
- Recipes.Evaluate: inherits the exact-case world-state lookup of CalculateWorldStateMultiplier; recipe identifiers are generated, so their case always agrees. The engine keys these maps and sets by FString, whose hashing and comparison ignore case; the model compares strings exactly.
- Recipes.Discover: the recipe identifier is looked up exactly in the definitions and the discovered set. The engine keys these maps and sets by FString, whose hashing and comparison ignore case; the model compares strings exactly.
- Recipes.RecipeSystem.EvaluateRecipe: inherits the exact-case world-state lookup of CalculateWorldStateMultiplier. The engine keys these maps and sets by FString, whose hashing and comparison ignore case; the model compares strings exactly.
- Recipes.RecipeSystem.GetRecipeByID: the identifier is looked up exactly, so an identifier differing only in case finds nothing here but finds the definition in the engine. The engine keys these maps and sets by FString, whose hashing and comparison ignore case; the model compares strings exactly.
- Recipes.RecipeSystem.IsRecipeDiscovered: the discovered set is searched exactly. The engine keys these maps and sets by FString, whose hashing and comparison ignore case; the model compares strings exactly.
- Recipes.RecipeSystem.DiscoverRecipe: the definitions and the discovered set are searched exactly. The engine keys these maps and sets by FString, whose hashing and comparison ignore case; the model compares strings exactly.
- Recipes.RecipeSystem.GetRecipeUsageCount: the usage map is searched exactly. The engine keys these maps and sets by FString, whose hashing and comparison ignore case; the model compares strings exactly.
- Recipes.RecipeSystem.IncrementRecipeUsage: the usage map is searched exactly, so an identifier differing only in case starts a new count here where the engine adds to the old one. The engine keys these maps and sets by FString, whose hashing and comparison ignore case; the model compares strings exactly.
- Recipes.RecipeSystem.AddRecipe: a definition whose identifier differs only in case is filed beside the old one here, where the engine's Add replaces it. The engine keys these maps and sets by FString, whose hashing and comparison ignore case; the model compares strings exactly.
- RecipeBlueprint.EvaluateRecipe: inherits the exact-case world-state lookup of CalculateWorldStateMultiplier. The engine keys these maps and sets by FString, whose hashing and comparison ignore case; the model compares strings exactly.
- RecipeBlueprint.IsRecipeDiscovered: inherits the exact search of the discovered set. The engine keys these maps and sets by FString, whose hashing and comparison ignore case; the model compares strings exactly.
- RecipeBlueprint.GetRecipeByID: inherits the exact search of the definitions. The engine keys these maps and sets by FString, whose hashing and comparison ignore case; the model compares strings exactly.
- RecipeBlueprint.GetRecipeUsageCount: inherits the exact search of the usage map. The engine keys these maps and sets by FString, whose hashing and comparison ignore case; the model compares strings exactly.
- RecipeBlueprint.AddWorldStateParameter: a key differing only in case from an existing one is added beside it here, where the engine's Add replaces the old entry. The engine keys these maps and sets by FString, whose hashing and comparison ignore case; the model compares strings exactly.
- RecipeBlueprint.AddWorldStateCommutes: holds for keys that differ as strings; two keys that differ only in case are one entry in the engine, where the later addition wins. The engine keys these maps and sets by FString, whose hashing and comparison ignore case; the model compares strings exactly.
- RecipeBlueprint.GetEffectValue: the effect key is looked up exactly, so "firedamage" returns the default here where the engine finds FireDamage. The engine keys these maps and sets by FString, whose hashing and comparison ignore case; the model compares strings exactly.
- RecipeBlueprint.HasEffect: the effect key is looked up exactly. The engine keys these maps and sets by FString, whose hashing and comparison ignore case; the model compares strings exactly.
- PhysicsManager.PhysicsEffectManager.UpdateEffects: requires Valid(): every listed effect filed once under its current identifier. A Reset of a registered effect gives it a new identifier and breaks this; the engine then still runs the update, collects the new identifier, fails to remove it and leaves the expired effect listed, and the model does not follow that state.
- PhysicsManager.PhysicsEffectManager.ApplyAll: requires Valid(), which keeps the list free of repeats; after a Reset and a second AddEffect the engine may list one effect twice and apply it twice per marble, which the model does not follow.
- PhysicsManager.PhysicsEffectManager.RemoveExpiredEffects: requires Valid(); after a Reset of a registered effect the engine's RemoveEffect misses the new identifier, the effect stays listed, and the returned count overstates the removals, which the model does not follow.
- PhysicsManager.PhysicsEffectManager.RemoveIds: requires Valid(); the engine's loop also runs on a list and map a Reset has put out of step, where RemoveEffect can fail, and the model does not follow that case.
- Floating point: every float and double is an exact real, with no rounding, NaN, infinity or overflow. The fractal noise's division by a zero MaxValue, which gives NaN or infinity in the engine, is `None`. Elsewhere the model follows the engine's own guards.
- Transcendental functions: sin, cos, atan2 and the Gaussian supply-point density (an exp) are uninterpreted fields of `MathFns`. The only fact assumed of them is that the density is non-negative, stated as a requires of the lemma that uses it. Square roots are avoided by comparing squared distances.
- Randomness: `FMath::FRand`, `RandRange`, `VRand` and the `FRandomStream` of the shape generator and of the Perlin table are draw parameters. A `RandRange(0, n - 1)` pick is the oracle value reduced by `% n`, so an in-range draw is unaffected. Which numbers the engine's generators produce is not modelled.
- The wormhole's random exit direction (`VRand` scaled by the exit speed) is the parameter `scattered`. Its length and distribution are not modelled.
- The circular scene's `HandleBoundaryInteraction`, `GetLaunchVector` and the polar-to-Cartesian conversions use sine and cosine. The conversions are parameters; `HandleBoundaryInteraction` and both scenes' `GetLaunchVector` are not part of this model.
- GravityFieldEffect.cpp is not part of this model: its normalisation and inverse-square pull are floating-point physics only.
- WFCAssembler.cpp is not part of this model: its propagation loop never pops its stack, so it does not terminate as written.
- `GenerateShapeWithSimplexNoise` and the third-party simplex noise it calls are not part of this model.
- The engine's colour conversions (`LerpUsingHSV`, `LinearRGBToHSV`, `HSVToLinearRGB`) are parameters of the palette generator. `CreatePaletteSwapMaterial` creates an engine material and is not modelled.
- `URecipeSystem::SaveRecipeLibrary` and `LoadRecipeLibrary` are stubs that return true and are not modelled. `DiscoveryTimestamps` comes from the wall clock and is not kept.
- `URecipeSystem::Get` is modelled over two parameters: whether the world context reaches a game instance, and the system registered with it. The engine's subsystem registry itself is not modelled.
- `UE_LOG` calls are not modelled.
- `UWorldMorphingSubsystem::Initialize`/`Deinitialize` and its `FPerlinNoise` instance are not modelled. The noise offsets are drawn and stored by InitializeWorld (FRand × 1000 each) but no layer reads them.
- `FGuid::NewGuid` is modelled as fresh identifiers from a counter, and `FEnemyData::IsAlive`/`ApplyDamage` are parameters: their bodies are in a header that is not part of this model. Event broadcasting appends to an event log.
- The world-morphing blueprint library, the visualisation, configuration and simulation headers, the monster actor and visualiser, the combat initialiser and helpers, the constant-only effect and scene factories, the scripts and the tests are not part of this model.
- PerlinNoises.PerlinNoise.GenerateFBM: the C++ default arguments Octaves = 4 and Persistence = 0.5 (Source/EchoAlchemist/Public/WorldMorphing/PerlinNoise.h:33) are not modelled; a call that relies on them passes those values explicitly.
- PaletteGenerators.GenerateMonochromaticPalette: the C++ default arguments SaturationRange = (0.2, 1.0) and ValueRange = (0.3, 1.0) (Source/EchoAlchemist/Public/PCG/PaletteGenerator.h:53) are not modelled; a call that relies on them passes those ranges explicitly.
