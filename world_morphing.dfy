/**
 * UWorldMorphingSubsystem: the grid, its size, the simulation parameters,
 * the tick counters and the edge supply points, with world creation, the
 * tick that runs the four layers in order, and the read accessors.
 */
module WorldMorphing {
  import opened UnrealMath
  import opened WorldMorphingTypes
  import opened WorldGrid
  import opened EdgeSupply
  import opened EdgeDistance
  import opened MantleBoundary
  import opened MantleLayer
  import opened ClimateLayer
  import opened CrystalLayer
  import opened CrystalUpdate
  import opened HumanChanges
  import opened HumanApply
  import opened HumanLayer

  /** Ticks per cycle: CycleCount rises whenever TimeStep reaches a multiple of this. */
  const CycleLength := 1000

  /** The FRand() draws of InitializeWorld: the two noise offsets, each supply point's angle and speed, each existing cell's mantle energy. */
  datatype InitDraws = InitDraws(noiseX: real, noiseY: real, angle: int -> real, speed: int -> real, mantle: (int, int) -> real)

  /** The random draws of one tick, layer by layer. */
  datatype TickDraws = TickDraws(supply: SupplyDraws, boundary: (int, int) -> int, crystal: CrystalDraws, human: HumanDraws)

  /** TArray::SetNum: keep the first n elements, pad with fill. */
  function SetNum<T>(s: seq<T>, n: nat, fill: T): (r: seq<T>)
    ensures |r| == n
    ensures forall i :: 0 <= i < n ==> r[i] == if i < |s| then s[i] else fill
  {
    if n <= |s| then s[..n] else s + seq(n - |s|, _ => fill)
  }

  /** The supply point i of InitializeWorld: angle FRand() * 2π, speed (FRand() - 0.5) * EdgeSupplyPointSpeed. */
  function SeededPoint(p: SimulationParams, d: InitDraws, i: int): SupplyPoint
  {
    SupplyPoint(d.angle(i) * Pi * 2.0, (d.speed(i) - 0.5) * p.edgeSupplyPointSpeed)
  }

  /** The starting radius of the world: 0.4 of the smaller side. */
  function InitialRadius(w: int, h: int): real
  {
    MinInt(w, h) as real * 0.4
  }

  /**
   * InitializeWorld on the cell c found at (x, y) after the resize: its
   * place is written; it exists when its distance to the centre is below the
   * initial radius; an existing cell gets 50 + 20 * FRand() mantle energy
   * and, within distance 3 of the centre, an Alpha crystal. Everything else
   * is left as c had it.
   */
  function InitialCell(c: Cell, w: int, h: int, x: int, y: int, draw: real): Cell
  {
    var d2 := CentreDistSq(w, h, x, y);
    var c1 := c.(x := x, y := y, inWorld := DistLess(d2, InitialRadius(w, h)));
    if !c1.inWorld then c1
    else c1.(mantleEnergy := 50.0 + draw * 20.0, crystalState := if DistLess(d2, 3.0) then Alpha else c1.crystalState)
  }

  /** The cell found at (x, y) after Grid.SetNum(H) and Grid[Y].SetNum(W): the old cell if there was one, a default cell otherwise. */
  function Found(prior: Grid, x: int, y: int): Cell
  {
    if 0 <= y < |prior| && 0 <= x < |prior[y]| then prior[y][x] else DefaultCell
  }

  /** The grid InitializeWorld builds over the grid it finds. */
  function InitialGrid(prior: Grid, w: nat, h: nat, d: InitDraws): (r: Grid)
    ensures Shaped(r, w, h)
    ensures forall y, x :: 0 <= y < h && 0 <= x < w ==> r[y][x] == InitialCell(Found(prior, x, y), w, h, x, y, d.mantle(x, y))
  {
    seq(h, y requires 0 <= y < h => seq(w, x requires 0 <= x < w => InitialCell(Found(prior, x, y), w, h, x, y, d.mantle(x, y))))
  }

  /** The supply points InitializeWorld seeds: EdgeSupplyPointCount of them, none when the count is negative. */
  function InitialPoints(p: SimulationParams, d: InitDraws): (r: seq<SupplyPoint>)
  {
    seq(if p.edgeSupplyPointCount < 0 then 0 else p.edgeSupplyPointCount, i => SeededPoint(p, d, i))
  }

  /** The supply-point loop of InitializeWorld. */
  method SeedPoints(p: SimulationParams, d: InitDraws) returns (points: seq<SupplyPoint>)
    ensures |points| == if p.edgeSupplyPointCount < 0 then 0 else p.edgeSupplyPointCount
    ensures forall i :: 0 <= i < |points| ==> points[i] == SeededPoint(p, d, i)
  {
    points := [];
    var i := 0;
    while i < p.edgeSupplyPointCount
      invariant 0 <= i && (i <= p.edgeSupplyPointCount || i == 0)
      invariant |points| == i && forall j :: 0 <= j < i ==> points[j] == SeededPoint(p, d, j)
    {
      points := points + [SeededPoint(p, d, i)];
      i := i + 1;
    }
  }

  /** One row of the grid loop of InitializeWorld: Grid[Y].SetNum(W), then every cell of the row. */
  method BuildRow(prior: Grid, row0: seq<Cell>, w: nat, h: nat, y: int, d: InitDraws) returns (row: seq<Cell>)
    requires 0 <= y < h && row0 == (if y < |prior| then prior[y] else [])
    ensures |row| == w && forall x :: 0 <= x < w ==> row[x] == InitialCell(Found(prior, x, y), w, h, x, y, d.mantle(x, y))
  {
    row := SetNum(row0, w, DefaultCell);
    ghost var padded := row;
    for x := 0 to w
      invariant |row| == w
      invariant forall i :: 0 <= i < x ==> row[i] == InitialCell(Found(prior, i, y), w, h, i, y, d.mantle(i, y))
      invariant forall i :: x <= i < w ==> row[i] == padded[i] == Found(prior, i, y)
    {
      var cell := row[x].(x := x, y := y);
      var d2 := CentreDistSq(w, h, x, y);
      cell := cell.(inWorld := DistLess(d2, InitialRadius(w, h)));
      if cell.inWorld {
        cell := cell.(mantleEnergy := 50.0 + d.mantle(x, y) * 20.0);
        if DistLess(d2, 3.0) {
          cell := cell.(crystalState := Alpha);
        }
      }
      row := row[x := cell];
    }
  }

  /** The grid loop of InitializeWorld: Grid.SetNum(H), then every row. */
  method BuildGrid(prior: Grid, w: nat, h: nat, d: InitDraws) returns (g: Grid)
    ensures g == InitialGrid(prior, w, h, d)
  {
    ghost var target := InitialGrid(prior, w, h, d);
    var rows := SetNum(prior, h, []);
    g := rows;
    for y := 0 to h
      invariant |g| == h
      invariant forall j :: 0 <= j < y ==> g[j] == target[j]
      invariant forall j :: y <= j < h ==> g[j] == rows[j]
    {
      var row := BuildRow(prior, g[y], w, h, y, d);
      assert row == target[y];
      g := g[y := row];
    }
    assert forall j :: 0 <= j < h ==> g[j] == target[j];
  }

  /**
   * A first world, built where there was no grid: every cell knows its
   * place; a cell exists exactly when its distance to (W/2, H/2) is below
   * 0.4 * min(W, H); an existing cell holds 50 + 20 * FRand() mantle energy,
   * so between 50 and 70, and is Alpha exactly when it is closer than 3 to
   * the centre; a cell outside the world is a default cell, so empty and
   * without energy.
   */
  lemma FreshWorld(w: nat, h: nat, d: InitDraws)
    ensures var g := InitialGrid([], w, h, d);
      Labelled(g) && Clean(g)
      && forall y, x :: 0 <= y < h && 0 <= x < w ==>
           var c := g[y][x];
           var d2 := CentreDistSq(w, h, x, y);
           (c.inWorld <==> DistLess(d2, InitialRadius(w, h)))
           && (c.inWorld ==> c.mantleEnergy == 50.0 + d.mantle(x, y) * 20.0
                             && (0.0 <= d.mantle(x, y) <= 1.0 ==> 50.0 <= c.mantleEnergy <= 70.0))
           && (c.crystalState == Alpha <==> c.inWorld && DistLess(d2, 3.0))
           && (!c.inWorld ==> c == DefaultCell.(x := x, y := y))
  {
    var g := InitialGrid([], w, h, d);
    forall y, x | 0 <= y < h && 0 <= x < w
      ensures g[y][x] == InitialCell(DefaultCell, w, h, x, y, d.mantle(x, y))
    {
      assert Found([], x, y) == DefaultCell;
    }
  }

  /** Every cell of a new world knows its place, whatever grid it was built over. */
  lemma InitialLabelled(prior: Grid, w: nat, h: nat, d: InitDraws)
    ensures Labelled(InitialGrid(prior, w, h, d))
  {
    var g: Grid := InitialGrid(prior, w, h, d);
    forall y, x | 0 <= y < |g| && 0 <= x < |g[y]|
      ensures g[y][x].x == x && g[y][x].y == y
    {
      assert g[y][x] == InitialCell(Found(prior, x, y), w, h, x, y, d.mantle(x, y));
    }
  }

  /**
   * Initialising again over an earlier grid resizes it in place, so a cell
   * that was already there keeps every field the initialisation does not
   * write: its temperature, stored energy, prosperity, and, outside the new
   * world, its mantle energy and crystal.
   */
  lemma ReinitKeepsOldFields(prior: Grid, w: nat, h: nat, d: InitDraws, x: int, y: int)
    requires 0 <= y < h && 0 <= x < w && y < |prior| && x < |prior[y]|
    ensures var c := InitialGrid(prior, w, h, d)[y][x];
      c.temperature == prior[y][x].temperature && c.storedEnergy == prior[y][x].storedEnergy
      && c.prosperity == prior[y][x].prosperity
      && (!c.inWorld ==> c.mantleEnergy == prior[y][x].mantleEnergy && c.crystalState == prior[y][x].crystalState)
  {
    assert Found(prior, x, y) == prior[y][x];
  }

  /** So a settlement left on a cell the new world does not cover stays there, outside the world. */
  lemma ReinitCanLeaveSettlementOutside()
    ensures var g := InitialGrid([[DefaultCell.(crystalState := Human)]], 1, 1, InitDraws(0.0, 0.0, _ => 0.0, _ => 0.0, (_, _) => 0.0));
      !g[0][0].inWorld && g[0][0].crystalState == Human && !Clean(g)
  {
    ReinitKeepsOldFields([[DefaultCell.(crystalState := Human)]], 1, 1, InitDraws(0.0, 0.0, _ => 0.0, _ => 0.0, (_, _) => 0.0), 0, 0);
  }

  class WorldMorphingSubsystem {
    var grid: Grid
    var width: int
    var height: int
    var timeStep: int
    var cycleCount: int
    var params: SimulationParams
    var noiseOffsetX: real
    var noiseOffsetY: real
    var supplyPoints: seq<SupplyPoint>

    /** The grid is Height rows of Width cells, each knowing its place, and the counters never go below 0. */
    ghost predicate Valid()
      reads this
    {
      Shaped(grid, width, height) && Labelled(grid) && timeStep >= 0 && cycleCount >= 0
    }

    /** Initialize: an empty world, both counters at 0. */
    constructor ()
      ensures Valid()
      ensures width == 0 && height == 0 && timeStep == 0 && cycleCount == 0 && grid == [] && supplyPoints == []
    {
      grid := [];
      width, height := 0, 0;
      timeStep, cycleCount := 0, 0;
      params := DefaultParams;
      noiseOffsetX, noiseOffsetY := 0.0, 0.0;
      supplyPoints := [];
    }

    /**
     * InitializeWorld: set the size and parameters, reset both counters,
     * draw the noise offsets, seed EdgeSupplyPointCount supply points and
     * build the grid over the old one.
     */
    method InitializeWorld(inWidth: int, inHeight: int, initParams: SimulationParams, d: InitDraws)
      requires inWidth >= 0 && inHeight >= 0
      modifies this
      ensures Valid()
      ensures width == inWidth && height == inHeight && params == initParams
      ensures timeStep == 0 && cycleCount == 0
      ensures noiseOffsetX == d.noiseX * 1000.0 && noiseOffsetY == d.noiseY * 1000.0
      ensures |supplyPoints| == if initParams.edgeSupplyPointCount < 0 then 0 else initParams.edgeSupplyPointCount
      ensures forall i :: 0 <= i < |supplyPoints| ==> supplyPoints[i] == SeededPoint(initParams, d, i)
      ensures grid == InitialGrid(old(grid), inWidth, inHeight, d)
    {
      var points := SeedPoints(initParams, d);
      var g := BuildGrid(grid, inWidth, inHeight, d);
      InitialLabelled(grid, inWidth, inHeight, d);
      Configure(inWidth, inHeight, initParams, d.noiseX * 1000.0, d.noiseY * 1000.0);
      Commit(0, 0, g, points);
    }

    /** The size, the parameters and the noise offsets InitializeWorld sets. */
    method Configure(w: int, h: int, prm: SimulationParams, nx: real, ny: real)
      modifies this
      ensures width == w && height == h && params == prm && noiseOffsetX == nx && noiseOffsetY == ny
    {
      width, height, params := w, h, prm;
      noiseOffsetX, noiseOffsetY := nx, ny;
    }

    /**
     * TickSimulation: nothing on an empty grid; otherwise TimeStep rises by
     * one, CycleCount by one when the new TimeStep is a multiple of
     * CycleLength, and the mantle, climate, crystal and human layers run in
     * that order, each on the grid the one before left. What the layers do
     * to the grid is stated on Tick, which does the work.
     */
    method TickSimulation(deltaTime: real, m: MathFns, dr: TickDraws)
      requires Valid() && MaxSearchDist(params) < MaxInt32
      modifies this
      ensures Valid()
      ensures width == old(width) && height == old(height) && params == old(params)
      ensures noiseOffsetX == old(noiseOffsetX) && noiseOffsetY == old(noiseOffsetY)
      ensures old(width) == 0 || old(height) == 0 ==>
        timeStep == old(timeStep) && cycleCount == old(cycleCount) && grid == old(grid) && supplyPoints == old(supplyPoints)
      ensures old(width) != 0 && old(height) != 0 ==>
        Ticked(old(grid), old(timeStep), old(cycleCount), old(supplyPoints), width, height, params, m, dr,
               timeStep, cycleCount, grid, supplyPoints)
      ensures Clean(old(grid)) ==> Clean(grid)
    {
      if width == 0 || height == 0 {
        return;
      }
      var t, c, settled, points := Tick(grid, width, height, timeStep, cycleCount, supplyPoints, params, m, dr);
      Commit(t, c, settled, points);
    }

    /** The end of a tick: the new counters, grid and supply points replace the old. */
    method Commit(t: int, c: int, g: Grid, points: seq<SupplyPoint>)
      modifies this
      ensures timeStep == t && cycleCount == c && grid == g && supplyPoints == points
      ensures width == old(width) && height == old(height) && params == old(params)
      ensures noiseOffsetX == old(noiseOffsetX) && noiseOffsetY == old(noiseOffsetY)
    {
      timeStep, cycleCount, grid, supplyPoints := t, c, g, points;
    }

    /** GetCellAt: the blueprint view of the cell at (x, y), or a default FCellState off the grid. */
    function GetCellAt(x: int, y: int): (s: CellState)
      reads this
      requires Valid()
      ensures !IsValidCoord(width, height, x, y) ==> s == DefaultCellState
      ensures IsValidCoord(width, height, x, y) ==>
        var c := grid[y][x];
        s.inWorld == c.inWorld && s.mantleEnergy == c.mantleEnergy && s.temperature == c.temperature
        && s.hasThunderstorm == c.hasThunderstorm && s.crystalType == c.crystalState
        && s.storedEnergy == c.storedEnergy && s.isAbsorbing == c.isAbsorbing && s.prosperity == c.prosperity
    {
      if !IsValidCoord(width, height, x, y) then DefaultCellState else grid[y][x].ToBlueprintState()
    }

    /** SetSimulationParams: only the parameters change. */
    method SetSimulationParams(newParams: SimulationParams)
      requires Valid()
      modifies this
      ensures Valid()
      ensures params == newParams
      ensures grid == old(grid) && width == old(width) && height == old(height)
      ensures timeStep == old(timeStep) && cycleCount == old(cycleCount) && supplyPoints == old(supplyPoints)
    {
      params := newParams;
    }

    /** GetGridSize. */
    method GetGridSize() returns (outWidth: int, outHeight: int)
      requires Valid()
      ensures outWidth == width && outHeight == height
      ensures outHeight == |grid| && forall y :: 0 <= y < outHeight ==> |grid[y]| == outWidth
    {
      outWidth, outHeight := width, height;
    }

    /** The subsystem's GetNeighbors: the in-grid cells around (x, y), never (x, y) itself, at most eight. */
    method GetNeighbors(x: int, y: int) returns (ns: seq<Coord>)
      requires Valid()
      ensures ns == Neighbors(width, height, x, y)
      ensures forall c :: c in ns <==> IsValidCoord(width, height, c.x, c.y) && Adjacent(c, Coord(x, y))
      ensures Coord(x, y) !in ns && |ns| <= 8
      ensures forall i, j :: 0 <= i < j < |ns| ==> ns[i] != ns[j]
    {
      ns := WorldGrid.GetNeighbors(width, height, x, y);
      NeighborsDistinct(width, height, x, y);
    }
  }

  /** The counters of one tick: TimeStep goes up by one, and CycleCount with it whenever TimeStep reaches a multiple of CycleLength. */
  method AdvanceClock(timeStep: int, cycleCount: int) returns (t: int, c: int)
    ensures t == timeStep + 1
    ensures c == cycleCount + (if CRem(t, CycleLength) == 0 then 1 else 0)
    ensures timeStep >= 0 && cycleCount >= 0 ==> t > 0 && c >= 0
  {
    t := timeStep + 1;
    c := cycleCount;
    if CRem(t, CycleLength) == 0 {
      c := c + 1;
    }
  }

  /**
   * The grids one tick at TimeStep t passes through from g0: the mantle
   * layer gives a and moves the supply points from points to points' as
   * MantleStep says; the climate layer gives b as ClimateStep says; the
   * crystal layer gives c as CrystalStep says and the human layer r as
   * HumanStep says. On the way, the mantle layer moves each cell's contents
   * at most as CellMoved allows and the climate layer changes only the four
   * climate fields of a cell (ClimateOnly).
   */
  ghost predicate LayersRan(g0: Grid, a: Grid, b: Grid, c: Grid, r: Grid, w: int, h: int, t: int,
                            points: seq<SupplyPoint>, points': seq<SupplyPoint>, p: SimulationParams, m: MathFns, dr: TickDraws)
    requires Shaped(g0, w, h) && w > 0 && h > 0 && MaxSearchDist(p) < MaxInt32
  {
    (a, points') == MantleStep(g0, w, h, t, points, p, m, dr.supply, dr.boundary)
    && b == ClimateStep(a, w, h, t, p, m)
    && (forall y, x :: 0 <= y < h && 0 <= x < w ==>
          CellMoved(g0[y][x], a[y][x], w, h, x, y, p) && ClimateOnly(a[y][x], b[y][x]))
    && c == CrystalStep(b, w, h, p, dr.crystal)
    && r == HumanStep(c, w, h, p, dr.human)
  }

  /**
   * One tick on a non-empty grid, from counters t0 and c0, grid g0 and
   * supply points points0: the counters advance as AdvanceClock says, and
   * the layers, run at the new TimeStep t, lead from g0 to g and from
   * points0 to points through some grids as LayersRan says.
   */
  ghost predicate Ticked(g0: Grid, t0: int, c0: int, points0: seq<SupplyPoint>, w: int, h: int, p: SimulationParams, m: MathFns,
                         dr: TickDraws, t: int, c: int, g: Grid, points: seq<SupplyPoint>)
    requires Shaped(g0, w, h) && w > 0 && h > 0 && MaxSearchDist(p) < MaxInt32
  {
    t == t0 + 1 && c == c0 + (if CRem(t, CycleLength) == 0 then 1 else 0)
    && (exists a, b, cr :: LayersRan(g0, a, b, cr, g, w, h, t, points0, points, p, m, dr))
  }

  /** The work of TickSimulation on a non-empty grid: the counters, then the four layers. */
  method Tick(g: Grid, w: int, h: int, timeStep: int, cycleCount: int, points: seq<SupplyPoint>, p: SimulationParams, m: MathFns, dr: TickDraws)
    returns (t: int, c: int, settled: Grid, points': seq<SupplyPoint>)
    requires Shaped(g, w, h) && w > 0 && h > 0 && MaxSearchDist(p) < MaxInt32
    ensures Ticked(g, timeStep, cycleCount, points, w, h, p, m, dr, t, c, settled, points')
    ensures Shaped(settled, w, h)
    ensures timeStep >= 0 && cycleCount >= 0 ==> t > 0 && c >= 0
    ensures Labelled(g) ==> Labelled(settled)
    ensures Clean(g) ==> Clean(settled)
  {
    t, c := AdvanceClock(timeStep, cycleCount);
    var mantled, climated, crystalled;
    mantled, climated, crystalled, settled, points' := RunLayers(g, w, h, t, points, p, m, dr);
  }

  /**
   * The four layers of one tick, in order: mantle, climate, crystal, human,
   * each on the grid the one before left.
   */
  method RunLayers(g: Grid, w: int, h: int, timeStep: int, points: seq<SupplyPoint>, p: SimulationParams, m: MathFns, dr: TickDraws)
    returns (mantled: Grid, climated: Grid, crystalled: Grid, settled: Grid, points': seq<SupplyPoint>)
    requires Shaped(g, w, h) && w > 0 && h > 0 && MaxSearchDist(p) < MaxInt32
    ensures LayersRan(g, mantled, climated, crystalled, settled, w, h, timeStep, points, points', p, m, dr)
    ensures |points'| == |points|
    ensures Labelled(g) ==> Labelled(settled)
    ensures Clean(g) ==> Clean(settled)
  {
    mantled, points' := UpdateMantleLayer(g, w, h, timeStep, points, p, m, dr.supply, dr.boundary);
    climated := UpdateClimateLayer(mantled, w, h, timeStep, p, m);
    crystalled := UpdateCrystalLayer(climated, w, h, p, dr.crystal);
    SameGrid(crystalled, CrystalStep(climated, w, h, p, dr.crystal), w, h);
    settled := UpdateHumanLayer(crystalled, w, h, p, dr.human);
    if Labelled(g) {
      TickKeepsPlaces(g, mantled, climated, crystalled, settled, w, h, p);
    }
    if Clean(g) {
      ClimateKeepsClean(mantled, climated, w, h);
    }
  }

  /** Every layer keeps each cell's place, so the tick keeps the grid labelled. */
  lemma TickKeepsPlaces(g0: Grid, a: Grid, b: Grid, c: Grid, r: Grid, w: int, h: int, p: SimulationParams)
    requires Shaped(g0, w, h) && Shaped(a, w, h) && Shaped(b, w, h) && Shaped(c, w, h) && Shaped(r, w, h)
    requires Labelled(g0)
    requires forall y, x :: 0 <= y < h && 0 <= x < w ==> CellMoved(g0[y][x], a[y][x], w, h, x, y, p)
    requires forall y, x :: 0 <= y < h && 0 <= x < w ==> ClimateOnly(a[y][x], b[y][x])
    requires forall y, x :: 0 <= y < h && 0 <= x < w ==> CrystalOnly(b[y][x], c[y][x])
    requires Kept(c, r, w, h)
    ensures Labelled(r)
  {
    forall y, x | 0 <= y < h && 0 <= x < w
      ensures r[y][x].x == x && r[y][x].y == y
    {
      assert CellMoved(g0[y][x], a[y][x], w, h, x, y, p);
      assert ClimateOnly(a[y][x], b[y][x]);
      assert CrystalOnly(b[y][x], c[y][x]);
      assert HumanOnly(c[y][x], r[y][x]);
    }
  }

  /** The climate layer changes no existence, mantle energy or crystal, so it keeps a grid clean. */
  lemma ClimateKeepsClean(a: Grid, b: Grid, w: int, h: int)
    requires Shaped(a, w, h) && Shaped(b, w, h) && Clean(a)
    requires forall y, x :: 0 <= y < h && 0 <= x < w ==> ClimateOnly(a[y][x], b[y][x])
    ensures Clean(b)
  {
    forall y, x | 0 <= y < h && 0 <= x < w && !b[y][x].inWorld
      ensures b[y][x].mantleEnergy == 0.0 && b[y][x].crystalState == Empty
    {
      assert ClimateOnly(a[y][x], b[y][x]);
    }
  }
}
