/**
 * UpdateClimateLayer: a first raster pass that relaxes every in-world
 * cell's temperature towards its neighbours' average and towards a base
 * temperature set by its mantle energy and the season, working in place so
 * that neighbours earlier in the scan are seen already updated; then a
 * second pass that raises a thunderstorm wherever the temperature jump to an
 * in-world neighbour exceeds ThunderstormThreshold.
 */
module ClimateLayer {
  import opened UnrealMath
  import opened WorldMorphingTypes
  import opened WorldGrid

  /** The temperature of every off-world cell, and the lower clamp. */
  const MinTemperature: real := -50.0
  /** The upper clamp. */
  const MaxTemperature: real := 50.0

  /** SeasonalAmplitude * sin(2π * (TimeStep % 1000) / 1000). */
  function SeasonalOffset(timeStep: int, p: SimulationParams, m: MathFns): real
  {
    p.seasonalAmplitude * m.sin(TwoPi * (CRem(timeStep, 1000) as real / 1000.0))
  }

  /** The cooling a crystal adds to the temperature change. */
  function CrystalCooling(s: CrystalType): real
  {
    match s
    case Alpha => 0.5
    case Beta => 0.2
    case _ => 0.0
  }

  /** Only the four climate fields of a cell differ. */
  predicate ClimateOnly(c: Cell, d: Cell)
  {
    d == c.(temperature := d.temperature, baseTemperature := d.baseTemperature,
            temperatureChange := d.temperatureChange, hasThunderstorm := d.hasThunderstorm)
  }

  /**
   * The first-pass update of one cell, given how many in-world neighbours it
   * has and the sum of the temperatures it reads from them. Without such
   * neighbours the previous TemperatureChange is kept (less the crystal
   * cooling) rather than reset.
   */
  function ClimateCell(c: Cell, count: int, sum: real, seasonal: real, p: SimulationParams): (r: Cell)
    ensures ClimateOnly(c, r)
    ensures !c.inWorld ==> r.temperature == MinTemperature && !r.hasThunderstorm
    ensures c.inWorld ==> MinTemperature <= r.temperature <= MaxTemperature && r.hasThunderstorm == c.hasThunderstorm
    ensures c.inWorld && count <= 0 ==> r.temperatureChange == c.temperatureChange - CrystalCooling(c.crystalState)
  {
    if !c.inWorld then c.(temperature := MinTemperature, hasThunderstorm := false)
    else
      var base := (Min(100.0, c.mantleEnergy) - 50.0) * 0.5 + seasonal;
      var change0 := if count > 0 then p.diffusionRate * (sum / count as real - c.temperature) else c.temperatureChange;
      var change := change0 - CrystalCooling(c.crystalState);
      var t1 := c.temperature + change;
      var t2 := t1 + (base - t1) * 0.1;
      c.(baseTemperature := base, temperatureChange := change, temperature := Clamp(t2, MinTemperature, MaxTemperature))
  }

  /** The in-world neighbours of (x, y), in GetNeighbors order. */
  function ExistingNeighbours(g: Grid, w: int, h: int, x: int, y: int): (r: seq<Coord>)
    requires Shaped(g, w, h)
    ensures forall c :: c in r ==> IsValidCoord(w, h, c.x, c.y) && Adjacent(c, Coord(x, y)) && g[c.y][c.x].inWorld
    ensures forall c: Coord :: IsValidCoord(w, h, c.x, c.y) && Adjacent(c, Coord(x, y)) && g[c.y][c.x].inWorld ==> c in r
  {
    NeighborsInGrid(g, w, h, x, y);
    NeighborsValid(w, h, x, y);
    var r := InWorldAmong(g, Neighbors(w, h, x, y));
    assert forall c: Coord :: IsValidCoord(w, h, c.x, c.y) && Adjacent(c, Coord(x, y)) && g[c.y][c.x].inWorld ==> c in r by {
      forall c: Coord | IsValidCoord(w, h, c.x, c.y) && Adjacent(c, Coord(x, y)) && g[c.y][c.x].inWorld ensures c in r {
        NeighborsExactly(w, h, x, y, c);
      }
    }
    r
  }

  // ---------------------------------------------------------------------
  // Pass 1, in place.

  /** The temperature the pass reads at n while updating (x, y): updated when n comes first in the scan, old otherwise. */
  function SeenTemp(g: Grid, r: Grid, w: int, h: int, n: Coord, x: int, y: int): real
    requires Shaped(g, w, h) && Shaped(r, w, h) && IsValidCoord(w, h, n.x, n.y)
  {
    if Before(n.y, n.x, y, x) then r[n.y][n.x].temperature else g[n.y][n.x].temperature
  }

  /** The running AvgTemp total over ens, in list order. */
  function SeenSum(g: Grid, r: Grid, w: int, h: int, ens: seq<Coord>, x: int, y: int): real
    requires Shaped(g, w, h) && Shaped(r, w, h)
    requires forall c :: c in ens ==> IsValidCoord(w, h, c.x, c.y)
  {
    if ens == [] then 0.0
    else SeenSum(g, r, w, h, ens[..|ens| - 1], x, y) + SeenTemp(g, r, w, h, ens[|ens| - 1], x, y)
  }

  /** The value pass 1 gives (x, y), from the original grid g and the finished grid r. */
  function Warmed(g: Grid, r: Grid, w: int, h: int, x: int, y: int, seasonal: real, p: SimulationParams): Cell
    requires Shaped(g, w, h) && Shaped(r, w, h) && IsValidCoord(w, h, x, y)
  {
    var ens := ExistingNeighbours(g, w, h, x, y);
    ClimateCell(g[y][x], |ens|, SeenSum(g, r, w, h, ens, x, y), seasonal, p)
  }

  predicate Pass1At(g: Grid, r: Grid, w: int, h: int, seasonal: real, p: SimulationParams, xx: int, yy: int, y: int, x: int)
    requires Shaped(g, w, h) && Shaped(r, w, h)
  {
    IsValidCoord(w, h, xx, yy) ==>
      r[yy][xx] == if Before(yy, xx, y, x) then Warmed(g, r, w, h, xx, yy, seasonal, p) else g[yy][xx]
  }

  /** The cells before (y, x) hold their pass-1 value, the others are untouched. */
  ghost predicate Pass1Inv(g: Grid, r: Grid, w: int, h: int, seasonal: real, p: SimulationParams, y: int, x: int)
  {
    Shaped(g, w, h) && Shaped(r, w, h)
    && forall yy, xx :: Pass1At(g, r, w, h, seasonal, p, xx, yy, y, x)
  }

  /** The sum only reads cells that come first in the scan from the grid being built. */
  lemma {:induction false} SeenSumFrame(g: Grid, r: Grid, r': Grid, w: int, h: int, ens: seq<Coord>, x: int, y: int)
    requires Shaped(g, w, h) && Shaped(r, w, h) && Shaped(r', w, h)
    requires forall c :: c in ens ==> IsValidCoord(w, h, c.x, c.y)
    requires forall c :: c in ens && IsValidCoord(w, h, c.x, c.y) && Before(c.y, c.x, y, x) ==> r'[c.y][c.x].temperature == r[c.y][c.x].temperature
    ensures SeenSum(g, r', w, h, ens, x, y) == SeenSum(g, r, w, h, ens, x, y)
  {
    if ens != [] {
      SeenSumFrame(g, r, r', w, h, ens[..|ens| - 1], x, y);
    }
  }

  /** Pass 1 leaves existence alone. */
  lemma Pass1World(g: Grid, r: Grid, w: int, h: int, seasonal: real, p: SimulationParams, y: int, x: int)
    requires Pass1Inv(g, r, w, h, seasonal, p, y, x)
    ensures forall yy, xx :: IsValidCoord(w, h, xx, yy) ==> r[yy][xx].inWorld == g[yy][xx].inWorld
  {
    forall yy, xx | IsValidCoord(w, h, xx, yy) ensures r[yy][xx].inWorld == g[yy][xx].inWorld {
      assert Pass1At(g, r, w, h, seasonal, p, xx, yy, y, x);
    }
  }

  /** Writing the pass-1 value of (y, x) moves the invariant one cell on. */
  lemma Pass1Step(g: Grid, r: Grid, w: int, h: int, seasonal: real, p: SimulationParams, y: int, x: int, x1: int)
    requires Pass1Inv(g, r, w, h, seasonal, p, y, x) && IsValidCoord(w, h, x, y) && x1 == x + 1
    ensures Pass1Inv(g, Put(r, x, y, Warmed(g, r, w, h, x, y, seasonal, p)), w, h, seasonal, p, y, x1)
  {
    var c := Warmed(g, r, w, h, x, y, seasonal, p);
    var r' := Put(r, x, y, c);
    forall yy, xx ensures Pass1At(g, r', w, h, seasonal, p, xx, yy, y, x1) {
      if IsValidCoord(w, h, xx, yy) {
        if yy == y && xx == x {
          var ens := ExistingNeighbours(g, w, h, x, y);
          SeenSumFrame(g, r, r', w, h, ens, x, y);
        } else {
          assert Pass1At(g, r, w, h, seasonal, p, xx, yy, y, x);
          if Before(yy, xx, y, x) {
            var ens := ExistingNeighbours(g, w, h, xx, yy);
            SeenSumFrame(g, r, r', w, h, ens, xx, yy);
          }
        }
      }
    }
  }

  /** The end of a row is the start of the next. */
  lemma Pass1NextRow(g: Grid, r: Grid, w: int, h: int, seasonal: real, p: SimulationParams, y: int, y1: int)
    requires Pass1Inv(g, r, w, h, seasonal, p, y, w) && y1 == y + 1
    ensures Pass1Inv(g, r, w, h, seasonal, p, y1, 0)
  {
    forall yy, xx ensures Pass1At(g, r, w, h, seasonal, p, xx, yy, y1, 0) {
      assert Pass1At(g, r, w, h, seasonal, p, xx, yy, y, w);
    }
  }

  /** The body of the first pass for one cell, reading the grid as the pass has left it. */
  method WarmCell(g: Grid, r: Grid, w: int, h: int, x: int, y: int, seasonal: real, p: SimulationParams)
    returns (c: Cell)
    requires Pass1Inv(g, r, w, h, seasonal, p, y, x) && IsValidCoord(w, h, x, y)
    ensures c == Warmed(g, r, w, h, x, y, seasonal, p)
  {
    assert Pass1At(g, r, w, h, seasonal, p, x, y, y, x);
    var cell := r[y][x];
    if !cell.inWorld {
      c := cell.(temperature := MinTemperature, hasThunderstorm := false);
      return;
    }
    var base := (Min(100.0, cell.mantleEnergy) - 50.0) * 0.5 + seasonal;
    var ns := GetNeighbors(w, h, x, y);
    NeighborsInGrid(r, w, h, x, y);
    NeighborsValid(w, h, x, y);
    Pass1World(g, r, w, h, seasonal, p, y, x);
    InWorldAmongSame(r, g, ns);
    var ens := InWorldAmong(r, ns);
    assert ens == ExistingNeighbours(g, w, h, x, y);
    forall n | n in ens ensures r[n.y][n.x].temperature == SeenTemp(g, r, w, h, n, x, y) {
      assert Pass1At(g, r, w, h, seasonal, p, n.x, n.y, y, x);
    }
    var sum := TemperatureTotal(g, r, w, h, ens, x, y);
    c := RelaxCell(cell, |ens|, sum, seasonal, p);
  }

  /** The AvgTemp accumulation loop, before the division. */
  method TemperatureTotal(g: Grid, r: Grid, w: int, h: int, ens: seq<Coord>, x: int, y: int) returns (sum: real)
    requires Shaped(g, w, h) && Shaped(r, w, h)
    requires forall c :: c in ens ==> IsValidCoord(w, h, c.x, c.y)
    requires forall c :: c in ens && IsValidCoord(w, h, c.x, c.y) ==> r[c.y][c.x].temperature == SeenTemp(g, r, w, h, c, x, y)
    ensures sum == SeenSum(g, r, w, h, ens, x, y)
  {
    sum := 0.0;
    var i := 0;
    while i < |ens|
      invariant 0 <= i <= |ens|
      invariant sum == SeenSum(g, r, w, h, ens[..i], x, y)
    {
      var n := ens[i];
      assert ens[..i + 1][..i] == ens[..i];
      sum := sum + r[n.y][n.x].temperature;
      i := i + 1;
    }
    assert ens[..i] == ens;
  }

  /**
   * The arithmetic of the first pass for an in-world cell, given the number
   * of in-world neighbours and the total of the temperatures read from them.
   */
  method RelaxCell(cell: Cell, count: int, sum: real, seasonal: real, p: SimulationParams) returns (c: Cell)
    requires cell.inWorld
    ensures c == ClimateCell(cell, count, sum, seasonal, p)
  {
    var base := (Min(100.0, cell.mantleEnergy) - 50.0) * 0.5 + seasonal;
    var change := cell.temperatureChange;
    if count > 0 {
      var avg := sum / count as real;
      change := p.diffusionRate * (avg - cell.temperature);
    }
    ghost var change0 := change;
    assert change0 == if count > 0 then p.diffusionRate * (sum / count as real - cell.temperature) else cell.temperatureChange;
    if cell.crystalState == Alpha {
      change := change - 0.5;
    } else if cell.crystalState == Beta {
      change := change - 0.2;
    }
    assert change == change0 - CrystalCooling(cell.crystalState);
    var t := cell.temperature + change;
    t := t + (base - t) * 0.1;
    ghost var t2 := t;
    t := Clamp(t, MinTemperature, MaxTemperature);
    c := cell.(baseTemperature := base, temperatureChange := change, temperature := t);
    RelaxedIs(cell, count, sum, seasonal, p, change0, base, change, t2);
  }

  lemma RelaxedIs(c: Cell, count: int, sum: real, seasonal: real, p: SimulationParams,
                  change0: real, base: real, change: real, t2: real)
    requires c.inWorld
    requires change0 == if count > 0 then p.diffusionRate * (sum / count as real - c.temperature) else c.temperatureChange
    requires base == (Min(100.0, c.mantleEnergy) - 50.0) * 0.5 + seasonal
    requires change == change0 - CrystalCooling(c.crystalState)
    requires t2 == c.temperature + change + (base - (c.temperature + change)) * 0.1
    ensures ClimateCell(c, count, sum, seasonal, p)
         == c.(baseTemperature := base, temperatureChange := change, temperature := Clamp(t2, MinTemperature, MaxTemperature))
  {
  }

  /** The first climate pass, in raster order on the grid itself. */
  method ClimatePass1(g: Grid, w: int, h: int, seasonal: real, p: SimulationParams) returns (r: Grid)
    requires Shaped(g, w, h)
    ensures Shaped(r, w, h)
    ensures forall y, x :: 0 <= y < h && 0 <= x < w ==> r[y][x] == Warmed(g, r, w, h, x, y, seasonal, p)
    ensures r == WarmRows(g, w, h, seasonal, p, h)
  {
    r := g;
    var y := 0;
    while y < h
      invariant 0 <= y <= h && Pass1Inv(g, r, w, h, seasonal, p, y, 0)
      invariant r == WarmRows(g, w, h, seasonal, p, y)
    {
      r := WarmRow(g, r, w, h, seasonal, p, y);
      y := y + 1;
    }
    forall yy, xx | 0 <= yy < h && 0 <= xx < w ensures r[yy][xx] == Warmed(g, r, w, h, xx, yy, seasonal, p) {
      assert Pass1At(g, r, w, h, seasonal, p, xx, yy, h, 0);
    }
  }

  /** One row of the first pass, left to right. */
  method WarmRow(g: Grid, r: Grid, w: int, h: int, seasonal: real, p: SimulationParams, y: int) returns (r': Grid)
    requires 0 <= y < h && Pass1Inv(g, r, w, h, seasonal, p, y, 0)
    ensures Pass1Inv(g, r', w, h, seasonal, p, y + 1, 0)
    ensures r' == WarmCells(g, r, w, h, seasonal, p, y, w)
  {
    r' := r;
    var x := 0;
    while x < w
      invariant 0 <= x <= w && Pass1Inv(g, r', w, h, seasonal, p, y, x)
      invariant r' == WarmCells(g, r, w, h, seasonal, p, y, x)
    {
      var c := WarmCell(g, r', w, h, x, y, seasonal, p);
      Pass1Step(g, r', w, h, seasonal, p, y, x, x + 1);
      r' := Put(r', x, y, c);
      x := x + 1;
    }
    Pass1NextRow(g, r', w, h, seasonal, p, y, y + 1);
  }

  // ---------------------------------------------------------------------
  // Pass 2, thunderstorms.

  /** MaxDiff: the largest temperature jump from t to an in-world cell among ns, starting from 0. */
  function MaxDiffOver(g: Grid, ns: seq<Coord>, t: real): (r: real)
    requires forall c :: c in ns ==> 0 <= c.y < |g| && 0 <= c.x < |g[c.y]|
    ensures r >= 0.0
  {
    if ns == [] then 0.0
    else
      var n := ns[|ns| - 1];
      var m := MaxDiffOver(g, ns[..|ns| - 1], t);
      if g[n.y][n.x].inWorld then Max(m, Abs(g[n.y][n.x].temperature - t)) else m
  }

  /**
   * MaxDiff exceeds a threshold exactly when the threshold is negative or
   * some in-world cell of ns differs from t by more than it.
   */
  lemma {:induction false} MaxDiffExceeds(g: Grid, ns: seq<Coord>, t: real, threshold: real)
    requires forall c :: c in ns ==> 0 <= c.y < |g| && 0 <= c.x < |g[c.y]|
    ensures MaxDiffOver(g, ns, t) > threshold <==>
      threshold < 0.0 || exists c :: c in ns && g[c.y][c.x].inWorld && Abs(g[c.y][c.x].temperature - t) > threshold
  {
    if ns != [] {
      var init := ns[..|ns| - 1];
      MaxDiffExceeds(g, init, t, threshold);
      assert forall c :: c in ns <==> c in init || c == ns[|ns| - 1];
    }
  }

  /** MaxDiff reads only existence and temperature. */
  lemma {:induction false} MaxDiffSame(a: Grid, b: Grid, ns: seq<Coord>, t: real)
    requires forall c :: c in ns ==> 0 <= c.y < |a| && 0 <= c.x < |a[c.y]| && 0 <= c.y < |b| && 0 <= c.x < |b[c.y]|
    requires forall c :: c in ns ==> a[c.y][c.x].inWorld == b[c.y][c.x].inWorld && a[c.y][c.x].temperature == b[c.y][c.x].temperature
    ensures MaxDiffOver(a, ns, t) == MaxDiffOver(b, ns, t)
  {
    if ns != [] {
      MaxDiffSame(a, b, ns[..|ns| - 1], t);
    }
  }

  /** The thunderstorm rule for the cell at (x, y). */
  predicate StormAt(g: Grid, w: int, h: int, x: int, y: int, p: SimulationParams)
    requires Shaped(g, w, h) && IsValidCoord(w, h, x, y)
  {
    NeighbourMaxDiff(g, w, h, x, y) > p.thunderstormThreshold
  }

  /** MaxDiff of a cell: the largest temperature gap to an in-world neighbour, 0 without one. */
  function NeighbourMaxDiff(g: Grid, w: int, h: int, x: int, y: int): real
    requires Shaped(g, w, h) && IsValidCoord(w, h, x, y)
  {
    NeighborsInGrid(g, w, h, x, y);
    MaxDiffOver(g, Neighbors(w, h, x, y), g[y][x].temperature)
  }

  /**
   * With a non-negative threshold, a storm is raised exactly when some
   * in-world neighbour's temperature differs by more than the threshold.
   */
  lemma StormMeaning(g: Grid, w: int, h: int, x: int, y: int, p: SimulationParams)
    requires Shaped(g, w, h) && IsValidCoord(w, h, x, y) && p.thunderstormThreshold >= 0.0
    ensures StormAt(g, w, h, x, y, p) <==>
      exists c :: c in Neighbors(w, h, x, y) && IsValidCoord(w, h, c.x, c.y) && g[c.y][c.x].inWorld
                  && Abs(g[c.y][c.x].temperature - g[y][x].temperature) > p.thunderstormThreshold
  {
    NeighborsInGrid(g, w, h, x, y);
    MaxDiffExceeds(g, Neighbors(w, h, x, y), g[y][x].temperature, p.thunderstormThreshold);
  }

  /** The MaxDiff loop of the second pass, on a grid whose storm flags alone differ from g. */
  method MaxNeighbourDiff(g: Grid, r: Grid, w: int, h: int, x: int, y: int) returns (maxDiff: real)
    requires Shaped(g, w, h) && Shaped(r, w, h) && IsValidCoord(w, h, x, y)
    requires forall yy, xx :: 0 <= yy < h && 0 <= xx < w ==> r[yy][xx] == g[yy][xx].(hasThunderstorm := r[yy][xx].hasThunderstorm)
    ensures maxDiff == NeighbourMaxDiff(g, w, h, x, y)
  {
    var t := r[y][x].temperature;
    var ns := GetNeighbors(w, h, x, y);
    NeighborsInGrid(g, w, h, x, y);
    maxDiff := 0.0;
    var i := 0;
    while i < |ns|
      invariant 0 <= i <= |ns|
      invariant maxDiff == MaxDiffOver(g, ns[..i], t)
    {
      var n := ns[i];
      assert n in ns;
      var cell := r[n.y][n.x];
      DiffStep(g, ns, i, t, maxDiff, cell.inWorld, cell.temperature);
      if cell.inWorld {
        maxDiff := Max(maxDiff, Abs(cell.temperature - t));
      }
      i := i + 1;
    }
    assert ns[..i] == ns;
  }

  lemma DiffStep(g: Grid, ns: seq<Coord>, i: int, t: real, m: real, inWorld: bool, temp: real)
    requires forall c :: c in ns ==> 0 <= c.y < |g| && 0 <= c.x < |g[c.y]|
    requires 0 <= i < |ns| && m == MaxDiffOver(g, ns[..i], t)
    requires inWorld == g[ns[i].y][ns[i].x].inWorld && temp == g[ns[i].y][ns[i].x].temperature
    ensures MaxDiffOver(g, ns[..i + 1], t) == if inWorld then Max(m, Abs(temp - t)) else m
  {
    assert ns[..i + 1][..i] == ns[..i];
  }

  /** The second pass: every in-world cell's storm flag is set from its neighbours' temperatures. */
  method Thunderstorms(g: Grid, w: int, h: int, p: SimulationParams) returns (r: Grid)
    requires Shaped(g, w, h)
    ensures Shaped(r, w, h)
    ensures forall y, x :: 0 <= y < h && 0 <= x < w ==>
      r[y][x] == if g[y][x].inWorld then g[y][x].(hasThunderstorm := StormAt(g, w, h, x, y, p)) else g[y][x]
  {
    r := g;
    var y := 0;
    while y < h
      invariant 0 <= y <= h && Shaped(r, w, h)
      invariant forall yy, xx :: 0 <= yy < h && 0 <= xx < w ==>
        r[yy][xx] == if yy < y && g[yy][xx].inWorld then g[yy][xx].(hasThunderstorm := StormAt(g, w, h, xx, yy, p)) else g[yy][xx]
    {
      var x := 0;
      while x < w
        invariant 0 <= x <= w && Shaped(r, w, h)
        invariant forall yy, xx :: 0 <= yy < h && 0 <= xx < w ==>
          r[yy][xx] == if Before(yy, xx, y, x) && g[yy][xx].inWorld then g[yy][xx].(hasThunderstorm := StormAt(g, w, h, xx, yy, p)) else g[yy][xx]
      {
        var cell := r[y][x];
        if cell.inWorld {
          var maxDiff := MaxNeighbourDiff(g, r, w, h, x, y);
          r := Put(r, x, y, cell.(hasThunderstorm := maxDiff > p.thunderstormThreshold));
        }
        x := x + 1;
      }
      y := y + 1;
    }
  }

  // ---------------------------------------------------------------------
  // The layer as a value.

  /** Row y of the first pass on top of r: its first x cells warmed in order, each reading the grid as it stands. */
  function WarmCells(g: Grid, r: Grid, w: int, h: int, seasonal: real, p: SimulationParams, y: int, x: int): (b: Grid)
    requires Shaped(g, w, h) && Shaped(r, w, h) && 0 <= y < h && 0 <= x <= w
    ensures Shaped(b, w, h)
    decreases x
  {
    if x == 0 then r
    else
      var prev := WarmCells(g, r, w, h, seasonal, p, y, x - 1);
      Put(prev, x - 1, y, Warmed(g, prev, w, h, x - 1, y, seasonal, p))
  }

  /** The first pass over the first y rows. */
  function WarmRows(g: Grid, w: int, h: int, seasonal: real, p: SimulationParams, y: int): (b: Grid)
    requires Shaped(g, w, h) && 0 <= y <= h
    ensures Shaped(b, w, h)
    decreases y
  {
    if y == 0 then g else WarmCells(g, WarmRows(g, w, h, seasonal, p, y - 1), w, h, seasonal, p, y - 1, w)
  }

  /** The second pass as a value: every in-world cell's storm flag set by StormAt on the first pass's grid. */
  function Stormed(g: Grid, w: int, h: int, p: SimulationParams): (r: Grid)
    requires Shaped(g, w, h)
    ensures Shaped(r, w, h)
    ensures forall y, x :: 0 <= y < h && 0 <= x < w ==>
      r[y][x] == if g[y][x].inWorld then g[y][x].(hasThunderstorm := StormAt(g, w, h, x, y, p)) else g[y][x]
  {
    seq(h, y requires 0 <= y < h => seq(w, x requires 0 <= x < w =>
      if g[y][x].inWorld then g[y][x].(hasThunderstorm := StormAt(g, w, h, x, y, p)) else g[y][x]))
  }

  /** The grid one climate tick leaves: the first pass in raster order with the season's offset, then the storms. */
  function ClimateStep(g: Grid, w: int, h: int, timeStep: int, p: SimulationParams, m: MathFns): (r: Grid)
    requires Shaped(g, w, h)
    ensures Shaped(r, w, h)
  {
    Stormed(WarmRows(g, w, h, SeasonalOffset(timeStep, p, m), p, h), w, h, p)
  }

  /**
   * One climate tick. Only the climate fields change; off-world cells end
   * at -50 degrees without a storm; in-world cells end within [-50, 50],
   * with a storm exactly when the rule holds on the final temperatures.
   */
  method UpdateClimateLayer(g: Grid, w: int, h: int, timeStep: int, p: SimulationParams, m: MathFns) returns (r: Grid)
    requires Shaped(g, w, h)
    ensures Shaped(r, w, h)
    ensures forall y, x :: 0 <= y < h && 0 <= x < w ==> ClimateOnly(g[y][x], r[y][x])
    ensures forall y, x :: 0 <= y < h && 0 <= x < w && !r[y][x].inWorld ==>
      r[y][x].temperature == MinTemperature && !r[y][x].hasThunderstorm
    ensures forall y, x :: 0 <= y < h && 0 <= x < w && r[y][x].inWorld ==>
      MinTemperature <= r[y][x].temperature <= MaxTemperature
      && (r[y][x].hasThunderstorm <==> StormAt(r, w, h, x, y, p))
    ensures r == ClimateStep(g, w, h, timeStep, p, m)
  {
    var timeCycle := CRem(timeStep, 1000) as real / 1000.0;
    var seasonal := p.seasonalAmplitude * m.sin(TwoPi * timeCycle);
    assert seasonal == SeasonalOffset(timeStep, p, m);
    var warmed := ClimatePass1(g, w, h, seasonal, p);
    r := Thunderstorms(warmed, w, h, p);
    SameGrid(r, Stormed(warmed, w, h, p), w, h);
    StormsSettled(warmed, w, h, p);
  }

  /**
   * The second pass leaves every temperature as it found it, so each storm
   * flag it sets agrees with the rule read on the grid it leaves.
   */
  lemma StormsSettled(g: Grid, w: int, h: int, p: SimulationParams)
    requires Shaped(g, w, h)
    ensures var r: Grid := Stormed(g, w, h, p);
      forall y, x :: 0 <= y < h && 0 <= x < w && r[y][x].inWorld ==>
        (r[y][x].hasThunderstorm <==> StormAt(r, w, h, x, y, p))
  {
    var r: Grid := Stormed(g, w, h, p);
    forall y, x | 0 <= y < h && 0 <= x < w && r[y][x].inWorld
      ensures r[y][x].hasThunderstorm <==> StormAt(r, w, h, x, y, p)
    {
      NeighborsInGrid(r, w, h, x, y);
      MaxDiffSame(g, r, Neighbors(w, h, x, y), r[y][x].temperature);
    }
  }
}
