/**
 * UpdateMantleLayer: diffusion, the supply-point drift, the distance-to-edge
 * search and edge injection (only while EdgeGenerationEnergy is positive),
 * then the boundary pass, each on the grid the step before left.
 */
module MantleLayer {
  import opened UnrealMath
  import opened WorldMorphingTypes
  import opened WorldGrid
  import opened MantleDiffusion
  import opened EdgeSupply
  import opened EdgeDistance
  import opened EdgeInjection
  import opened MantleBoundary

  /**
   * One mantle tick. Across the whole layer a cell changes only its
   * existence, mantle energy and crystal state, a crystal only ever turns
   * Empty, and the world grows only within MaxRadius and shrinks only beyond
   * MinRadius. Off-world cells stay empty and without energy, and from a
   * clean grid no mantle energy ends negative as long as the Gaussian
   * falloff is non-negative.
   */
  method UpdateMantleLayer(g: Grid, w: int, h: int, timeStep: int, points: seq<SupplyPoint>,
                           p: SimulationParams, m: MathFns, draws: SupplyDraws, pick: (int, int) -> int)
    returns (r: Grid, points': seq<SupplyPoint>)
    requires Shaped(g, w, h)
    requires MaxSearchDist(p) < MaxInt32
    ensures Shaped(r, w, h)
    ensures forall y, x :: 0 <= y < h && 0 <= x < w ==> CellMoved(g[y][x], r[y][x], w, h, x, y, p)
    ensures Clean(g) ==> Clean(r)
    ensures Clean(g) && (forall d, s :: m.gaussian(d, s) >= 0.0) ==> MantleNonNegative(r)
    ensures |points'| == |points|
    ensures forall i :: 0 <= i < |points| ==>
      points'[i].angle == WrapOnce(points[i].angle + points[i].speed * (draws.drift(i) * 0.5 + 0.75))
    ensures forall i :: 0 <= i < |points| ==>
      points'[i].speed == if draws.reroll(i) then NewSpeed(draws.speed(i), p) else points[i].speed
    ensures (r, points') == MantleStep(g, w, h, timeStep, points, p, m, draws, pick)
  {
    var diffused := Diffuse(g, w, h, timeStep, p, m);
    points' := MoveSupplyPoints(points, p, draws);
    var injected := diffused;
    if p.edgeGenerationEnergy > 0.0 {
      injected := InjectStage(diffused, w, h, points', p, m);
    }
    ghost var lost, erased;
    r, lost, erased := BoundaryPass(injected, w, h, p, pick);
    MantleStepOf(g, w, h, timeStep, points, p, m, draws, pick, diffused, points', injected, r);
    MantleStepKeeps(g, w, h, timeStep, points, p, m, draws, pick);
  }

  /**
   * What a mantle tick does to each cell, stated on MantleStep: only
   * existence, mantle energy and crystal change, as CellMoved allows; a clean
   * grid stays clean, and with a non-negative falloff its energy stays
   * non-negative.
   */
  lemma MantleStepKeeps(g: Grid, w: int, h: int, timeStep: int, points: seq<SupplyPoint>, p: SimulationParams, m: MathFns,
                        draws: SupplyDraws, pick: (int, int) -> int)
    requires Shaped(g, w, h) && MaxSearchDist(p) < MaxInt32
    ensures var r := MantleStep(g, w, h, timeStep, points, p, m, draws, pick).0;
      (forall y, x :: 0 <= y < h && 0 <= x < w ==> CellMoved(g[y][x], r[y][x], w, h, x, y, p))
      && (Clean(g) ==> Clean(r))
      && (Clean(g) && (forall d, s :: m.gaussian(d, s) >= 0.0) ==> MantleNonNegative(r))
  {
    var diffused: Grid := DiffusedGrid(g, w, h, timeStep, p, m);
    DiffusedKeeps(g, w, h, timeStep, p, m);
    var moved: seq<SupplyPoint> := MovedPoints(points, p, draws);
    var injected: Grid := if p.edgeGenerationEnergy > 0.0 then InjectedGrid(diffused, w, h, moved, p, m) else diffused;
    if p.edgeGenerationEnergy > 0.0 {
      InjectedKeeps(diffused, w, h, moved, p, m);
      EnergyOnlyTrans(g, diffused, injected, w, h);
    }
    var r: Grid := BoundaryResult(injected, w, h, p, pick);
    var lost, erased := PassRowsKeeps(injected, w, h, p, pick, h);
    BoundaryCells(injected, r, w, h, p, lost, erased);
    assert r == MantleStep(g, w, h, timeStep, points, p, m, draws, pick).0;
  }

  /** Diffusion as a value changes only mantle energy, and from a clean grid leaves none negative. */
  lemma DiffusedKeeps(g: Grid, w: int, h: int, timeStep: int, p: SimulationParams, m: MathFns)
    requires Shaped(g, w, h)
    ensures EnergyOnly(g, DiffusedGrid(g, w, h, timeStep, p, m), w, h)
    ensures Clean(g) ==> MantleNonNegative(DiffusedGrid(g, w, h, timeStep, p, m))
  {
    var r: Grid := DiffusedGrid(g, w, h, timeStep, p, m);
    forall y, x | 0 <= y < h && 0 <= x < w
      ensures r[y][x] == g[y][x].(mantleEnergy := r[y][x].mantleEnergy)
      ensures r[y][x].inWorld ==> r[y][x].mantleEnergy >= 0.0
      ensures !r[y][x].inWorld ==> r[y][x] == g[y][x]
    {
    }
  }

  /** Injection as a value changes only mantle energy, and with a non-negative falloff lowers none. */
  lemma InjectedKeeps(g: Grid, w: int, h: int, points: seq<SupplyPoint>, p: SimulationParams, m: MathFns)
    requires Shaped(g, w, h) && MaxSearchDist(p) < MaxInt32 && p.edgeGenerationEnergy > 0.0
    ensures EnergyOnly(g, InjectedGrid(g, w, h, points, p, m), w, h)
    ensures MantleNonNegative(g) && (forall d, s :: m.gaussian(d, s) >= 0.0) ==> MantleNonNegative(InjectedGrid(g, w, h, points, p, m))
  {
    var dist := DistanceField(g, w, h, MaxSearchDist(p));
    InjectionKeeps(g, InjectedGrid(g, w, h, points, p, m), w, h, dist, points, p, m);
  }

  /** The stages of UpdateMantleLayer, each as its value, make up MantleStep. */
  lemma MantleStepOf(g: Grid, w: int, h: int, timeStep: int, points: seq<SupplyPoint>, p: SimulationParams, m: MathFns,
                     draws: SupplyDraws, pick: (int, int) -> int, diffused: Grid, moved: seq<SupplyPoint>, injected: Grid, r: Grid)
    requires Shaped(g, w, h) && MaxSearchDist(p) < MaxInt32
    requires diffused == DiffusedGrid(g, w, h, timeStep, p, m) && moved == MovedPoints(points, p, draws)
    requires injected == if p.edgeGenerationEnergy > 0.0 then InjectedGrid(diffused, w, h, moved, p, m) else diffused
    requires r == BoundaryResult(injected, w, h, p, pick)
    ensures (r, moved) == MantleStep(g, w, h, timeStep, points, p, m, draws, pick)
  {
  }

  /** The grid after diffusion: every cell takes its DiffusionAt change through Diffused. */
  function DiffusedGrid(g: Grid, w: int, h: int, timeStep: int, p: SimulationParams, m: MathFns): (r: Grid)
    requires Shaped(g, w, h)
    ensures Shaped(r, w, h)
    ensures forall y, x :: 0 <= y < h && 0 <= x < w ==>
      r[y][x] == Diffused(g[y][x], DiffusionAt(g, w, h, BiasX(timeStep, p, m), BiasY(timeStep, p, m), x, y))
  {
    seq(h, y requires 0 <= y < h =>
      seq(w, x requires 0 <= x < w => Diffused(g[y][x], DiffusionAt(g, w, h, BiasX(timeStep, p, m), BiasY(timeStep, p, m), x, y))))
  }

  /** The grid after edge injection, with the distances the search finds on g. */
  function InjectedGrid(g: Grid, w: int, h: int, points: seq<SupplyPoint>, p: SimulationParams, m: MathFns): (r: Grid)
    requires Shaped(g, w, h) && MaxSearchDist(p) < MaxInt32
    ensures Shaped(r, w, h)
    ensures forall y, x :: 0 <= y < h && 0 <= x < w ==>
      r[y][x] == Injected(g[y][x], DistanceField(g, w, h, MaxSearchDist(p))[y][x], EdgeAngle(w, h, x, y, m), points, p, m)
  {
    var dist := DistanceField(g, w, h, MaxSearchDist(p));
    seq(h, y requires 0 <= y < h =>
      seq(w, x requires 0 <= x < w => Injected(g[y][x], dist[y][x], EdgeAngle(w, h, x, y, m), points, p, m)))
  }

  /**
   * The grid and supply points one mantle tick leaves: diffusion, the
   * supply-point drift, injection with the moved points while
   * EdgeGenerationEnergy is positive, then the boundary pass.
   */
  function MantleStep(g: Grid, w: int, h: int, timeStep: int, points: seq<SupplyPoint>,
                      p: SimulationParams, m: MathFns, draws: SupplyDraws, pick: (int, int) -> int): (r: (Grid, seq<SupplyPoint>))
    requires Shaped(g, w, h) && MaxSearchDist(p) < MaxInt32
    ensures Shaped(r.0, w, h) && |r.1| == |points|
  {
    var diffused := DiffusedGrid(g, w, h, timeStep, p, m);
    var moved := MovedPoints(points, p, draws);
    var injected := if p.edgeGenerationEnergy > 0.0 then InjectedGrid(diffused, w, h, moved, p, m) else diffused;
    (BoundaryResult(injected, w, h, p, pick), moved)
  }

  /** Grid b differs from grid a only in mantle energy, and keeps a clean grid clean. */
  predicate EnergyOnly(a: Grid, b: Grid, w: int, h: int)
  {
    Shaped(a, w, h) && Shaped(b, w, h)
    && (forall y, x :: 0 <= y < h && 0 <= x < w ==> b[y][x] == a[y][x].(mantleEnergy := b[y][x].mantleEnergy))
    && (Clean(a) ==> Clean(b))
  }

  lemma EnergyOnlyTrans(a: Grid, b: Grid, c: Grid, w: int, h: int)
    requires EnergyOnly(a, b, w, h) && EnergyOnly(b, c, w, h)
    ensures EnergyOnly(a, c, w, h)
  {
  }

  /** The diffusion step: the changes are computed on the grid as it stands, then applied. */
  method Diffuse(g: Grid, w: int, h: int, timeStep: int, p: SimulationParams, m: MathFns) returns (r: Grid)
    requires Shaped(g, w, h)
    ensures EnergyOnly(g, r, w, h)
    ensures Clean(g) ==> MantleNonNegative(r)
    ensures r == DiffusedGrid(g, w, h, timeStep, p, m)
  {
    var changes := DiffusionChanges(g, w, h, timeStep, p, m);
    r := ApplyDiffusion(g, w, h, changes);
    SameGrid(r, DiffusedGrid(g, w, h, timeStep, p, m), w, h);
  }

  /** The distance-to-edge search and the edge injection that uses it. */
  method InjectStage(g: Grid, w: int, h: int, points: seq<SupplyPoint>, p: SimulationParams, m: MathFns) returns (r: Grid)
    requires Shaped(g, w, h) && MaxSearchDist(p) < MaxInt32 && p.edgeGenerationEnergy > 0.0
    ensures EnergyOnly(g, r, w, h)
    ensures MantleNonNegative(g) && (forall d, s :: m.gaussian(d, s) >= 0.0) ==> MantleNonNegative(r)
    ensures r == InjectedGrid(g, w, h, points, p, m)
  {
    var dist := EdgeDistances(g, w, h, p);
    r := InjectEdgeEnergy(g, w, h, dist, points, p, m);
    InjectionKeeps(g, r, w, h, dist, points, p, m);
    SameGrid(r, InjectedGrid(g, w, h, points, p, m), w, h);
  }
}
