/**
 * UpdateCrystalLayer as a whole: absorption, sharing and its apply loop, the
 * transition scan and the copy back, with what the layer promises about the
 * grid it leaves.
 */
module CrystalUpdate {
  import opened UnrealMath
  import opened Wrappers
  import opened WorldMorphingTypes
  import opened WorldGrid
  import opened CrystalLayer
  import opened CrystalSharing
  import opened CrystalTransition

  // ---------------------------------------------------------------------
  // The layer as functions of the grid it starts from.

  /** The grid after step 1. */
  function AbsorbedGrid(g: Grid, w: int, h: int, p: SimulationParams): (a: Grid)
    requires Shaped(g, w, h)
    ensures Shaped(a, w, h)
    ensures forall y, x :: 0 <= y < h && 0 <= x < w ==> a[y][x] == Absorbed(g[y][x], p)
  {
    seq(h, y requires 0 <= y < h => seq(w, x requires 0 <= x < w => Absorbed(g[y][x], p)))
  }

  /** One cell after step 2: its gifts logged, its net change applied and clamped. */
  function SharedCell(a: Grid, w: int, h: int, p: SimulationParams, x: int, y: int): Cell
    requires Shaped(a, w, h) && IsValidCoord(w, h, x, y)
  {
    var c := Coord(x, y);
    var takers := AllLinks(a, w, h, p, Takes, c);
    AfterSharing(a[y][x].(energyFlow := Records(a, p, c, takers)), Gained(a, w, h, p, x, y) - Taken(a, p, c, takers), p)
  }

  /** The grid after step 2. */
  function SharedGrid(a: Grid, w: int, h: int, p: SimulationParams): (s: Grid)
    requires Shaped(a, w, h)
    ensures Shaped(s, w, h)
    ensures forall y, x :: 0 <= y < h && 0 <= x < w ==> s[y][x] == SharedCell(a, w, h, p, x, y)
  {
    seq(h, y requires 0 <= y < h => seq(w, x requires 0 <= x < w => SharedCell(a, w, h, p, x, y)))
  }

  /** One cell after step 3: its next state, and its buffered stored energy floored at 0. */
  function TransitedCell(s: Grid, w: int, h: int, p: SimulationParams, d: CrystalDraws, x: int, y: int): Cell
    requires Shaped(s, w, h) && IsValidCoord(w, h, x, y)
  {
    s[y][x].(crystalState := NextState(s, w, h, p, d, x, y), storedEnergy := Max(0.0, Pending(s, w, h, p, d, x, y)))
  }

  /** The grid UpdateCrystalLayer leaves. */
  function CrystalStep(g: Grid, w: int, h: int, p: SimulationParams, d: CrystalDraws): (r: Grid)
    requires Shaped(g, w, h)
    ensures Shaped(r, w, h)
  {
    var s := SharedGrid(AbsorbedGrid(g, w, h, p), w, h, p);
    seq(h, y requires 0 <= y < h => seq(w, x requires 0 <= x < w => TransitedCell(s, w, h, p, d, x, y)))
  }

  // ---------------------------------------------------------------------
  // The layer.

  /** The final copy: every cell takes its buffered state and max(0, buffered stored energy). */
  method ApplyTransitions(g: Grid, states: StateField, stored: Field, w: int, h: int) returns (r: Grid)
    requires Shaped(g, w, h) && StatesShaped(states, w, h) && FieldShaped(stored, w, h)
    ensures Shaped(r, w, h)
    ensures forall y, x :: 0 <= y < h && 0 <= x < w ==>
      r[y][x] == g[y][x].(crystalState := states[y][x], storedEnergy := Max(0.0, stored[y][x]))
  {
    r := g;
    var y := 0;
    while y < h
      invariant 0 <= y <= h && Shaped(r, w, h)
      invariant forall yy, xx :: 0 <= yy < h && 0 <= xx < w ==>
        r[yy][xx] == if yy < y then g[yy][xx].(crystalState := states[yy][xx], storedEnergy := Max(0.0, stored[yy][xx]))
                     else g[yy][xx]
    {
      var x := 0;
      while x < w
        invariant 0 <= x <= w && Shaped(r, w, h)
        invariant forall yy, xx :: 0 <= yy < h && 0 <= xx < w ==>
          r[yy][xx] == if Before(yy, xx, y, x)
                       then g[yy][xx].(crystalState := states[yy][xx], storedEnergy := Max(0.0, stored[yy][xx]))
                       else g[yy][xx]
      {
        var cell := r[y][x].(crystalState := states[y][x]);
        cell := cell.(storedEnergy := Max(0.0, stored[y][x]));
        r := Put(r, x, y, cell);
        x := x + 1;
      }
      y := y + 1;
    }
  }

  /**
   * UpdateCrystalLayer: absorb, share, apply the shares, scan the
   * transitions into the buffers and copy them back. The result is
   * CrystalStep of the grid, so every transition reads the grid as it stood
   * after sharing, not the states already decided in the same scan.
   */
  method UpdateCrystalLayer(g: Grid, w: int, h: int, p: SimulationParams, d: CrystalDraws) returns (r: Grid)
    requires Shaped(g, w, h)
    ensures Shaped(r, w, h)
    ensures forall y, x :: 0 <= y < h && 0 <= x < w ==> r[y][x] == CrystalStep(g, w, h, p, d)[y][x]
    ensures forall y, x :: 0 <= y < h && 0 <= x < w ==> CrystalOnly(g[y][x], r[y][x]) && r[y][x].storedEnergy >= 0.0
    ensures Clean(g) ==> Clean(r)
    ensures MantleNonNegative(g) ==> MantleNonNegative(r)
  {
    var shared := AbsorbAndShare(g, w, h, p);
    var states, stored := Transitions(shared, w, h, p, d);
    r := ApplyTransitions(shared, states, stored, w, h);
    TransitionsMakeStep(g, w, h, p, d, shared, states, stored, r);
    CrystalStepKeeps(g, w, h, p, d);
  }

  /** Steps 1 and 2 of UpdateCrystalLayer: absorption, then energy sharing. */
  method AbsorbAndShare(g: Grid, w: int, h: int, p: SimulationParams) returns (shared: Grid)
    requires Shaped(g, w, h)
    ensures Shaped(shared, w, h)
    ensures shared == SharedGrid(AbsorbedGrid(g, w, h, p), w, h, p)
  {
    var absorbed := AbsorbPass(g, w, h, p);
    var logged, changes := ShareEnergy(absorbed, w, h, p);
    shared := ApplySharing(logged, changes, w, h, p);
    SameGrid(absorbed, AbsorbedGrid(g, w, h, p), w, h);
    SameGrid(shared, SharedGrid(absorbed, w, h, p), w, h);
  }

  /** The three passes in order compute CrystalStep, cell by cell. */
  lemma TransitionsMakeStep(g: Grid, w: int, h: int, p: SimulationParams, d: CrystalDraws,
                            shared: Grid, states: StateField, stored: Field, r: Grid)
    requires Shaped(g, w, h) && Shaped(shared, w, h) && StatesShaped(states, w, h) && FieldShaped(stored, w, h)
    requires shared == SharedGrid(AbsorbedGrid(g, w, h, p), w, h, p)
    requires forall y, x :: 0 <= y < h && 0 <= x < w ==>
      states[y][x] == NextState(shared, w, h, p, d, x, y) && stored[y][x] == Pending(shared, w, h, p, d, x, y)
    requires Shaped(r, w, h)
    requires forall y, x :: 0 <= y < h && 0 <= x < w ==>
      r[y][x] == shared[y][x].(crystalState := states[y][x], storedEnergy := Max(0.0, stored[y][x]))
    ensures forall y, x :: 0 <= y < h && 0 <= x < w ==> r[y][x] == CrystalStep(g, w, h, p, d)[y][x]
  {
    forall y, x | 0 <= y < h && 0 <= x < w
      ensures r[y][x] == CrystalStep(g, w, h, p, d)[y][x]
    {
      assert CrystalStep(g, w, h, p, d)[y][x] == TransitedCell(shared, w, h, p, d, x, y);
    }
  }

  // ---------------------------------------------------------------------
  // What the layer promises.

  /** The crystal layer changes only mantle energy, the absorbing flag, crystal input, energy flow, state and stored energy. */
  predicate CrystalOnly(a: Cell, b: Cell)
  {
    b == a.(mantleEnergy := b.mantleEnergy, isAbsorbing := b.isAbsorbing, crystalEnergy := b.crystalEnergy,
            energyFlow := b.energyFlow, crystalState := b.crystalState, storedEnergy := b.storedEnergy)
  }

  /**
   * Across the layer a cell keeps its place, existence, climate and
   * prosperity; every stored energy ends non-negative; cells outside the
   * world, Beta and Human cells keep their state; and a clean grid with
   * non-negative mantle energy stays so.
   */
  lemma CrystalStepKeeps(g: Grid, w: int, h: int, p: SimulationParams, d: CrystalDraws)
    requires Shaped(g, w, h)
    ensures forall y, x :: 0 <= y < h && 0 <= x < w ==>
      var r := CrystalStep(g, w, h, p, d)[y][x];
      CrystalOnly(g[y][x], r) && r.storedEnergy >= 0.0
      && (!g[y][x].inWorld || g[y][x].crystalState == Beta || g[y][x].crystalState == Human ==>
            r.crystalState == g[y][x].crystalState)
    ensures Clean(g) ==> Clean(CrystalStep(g, w, h, p, d))
    ensures MantleNonNegative(g) ==> MantleNonNegative(CrystalStep(g, w, h, p, d))
  {
    var a: Grid := AbsorbedGrid(g, w, h, p);
    var s: Grid := SharedGrid(a, w, h, p);
    var r: Grid := CrystalStep(g, w, h, p, d);
    forall y, x | 0 <= y < h && 0 <= x < w
      ensures CrystalOnly(g[y][x], r[y][x]) && r[y][x].storedEnergy >= 0.0
      ensures !g[y][x].inWorld || g[y][x].crystalState == Beta || g[y][x].crystalState == Human ==>
        r[y][x].crystalState == g[y][x].crystalState
      ensures r[y][x].mantleEnergy == a[y][x].mantleEnergy && r[y][x].inWorld == g[y][x].inWorld
    {
      assert s[y][x] == a[y][x].(energyFlow := s[y][x].energyFlow, storedEnergy := s[y][x].storedEnergy);
      assert r[y][x] == TransitedCell(s, w, h, p, d, x, y);
    }
  }
}
