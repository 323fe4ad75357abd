/**
 * The boundary step of UpdateMantleLayer: edge cells rich in energy grow the
 * world into one empty neighbour, poor edge cells far from the centre give
 * their energy to their in-world neighbours and leave the world. The pass
 * runs in raster order on the grid itself, so a cell changed earlier in the
 * pass is seen changed by the cells after it.
 */
module MantleBoundary {
  import opened UnrealMath
  import opened WorldMorphingTypes
  import opened WorldGrid

  /**
   * What one boundary change may do to a grid: only existence, mantle energy
   * and crystal state change, a crystal only ever turns Empty, a cell enters
   * the world only within MaxRadius and leaves it only beyond MinRadius, and
   * the mantle energy is conserved up to `lost` (the energy of a shrinking
   * cell with no in-world neighbour) and `erased` (energy an off-world cell
   * held when an expansion overwrote it). A clean grid stays clean and erases
   * nothing; a grid with no negative mantle energy keeps none.
   */
  ghost predicate BoundaryStep(a: Grid, b: Grid, w: int, h: int, p: SimulationParams, lost: real, erased: real)
  {
    BoundaryCore(a, b, w, h, p, lost, erased) && (MantleNonNegative(a) ==> MantleNonNegative(b))
  }

  /** BoundaryStep without the sign clause, which single shares of a negative energy do not keep. */
  ghost predicate BoundaryCore(a: Grid, b: Grid, w: int, h: int, p: SimulationParams, lost: real, erased: real)
  {
    Shaped(a, w, h) && Shaped(b, w, h)
    && (forall y, x :: MovedAt(a, b, w, h, x, y, p))
    && TotalMantle(b) + lost + erased == TotalMantle(a)
    && (Clean(a) ==> Clean(b) && erased == 0.0)
  }

  /** CellMoved at (x, y) when that is on the grid. */
  predicate MovedAt(a: Grid, b: Grid, w: int, h: int, x: int, y: int, p: SimulationParams)
    requires Shaped(a, w, h) && Shaped(b, w, h)
  {
    0 <= y < h && 0 <= x < w ==> CellMoved(a[y][x], b[y][x], w, h, x, y, p)
  }

  /** The per-cell part of BoundaryStep. */
  predicate CellMoved(c: Cell, d: Cell, w: int, h: int, x: int, y: int, p: SimulationParams)
  {
    d == c.(inWorld := d.inWorld, mantleEnergy := d.mantleEnergy, crystalState := d.crystalState)
    && (d.crystalState == c.crystalState || d.crystalState == Empty)
    && (!c.inWorld && d.inWorld ==> DistAtMost(CentreDistSq(w, h, x, y), p.maxRadius))
    && (c.inWorld && !d.inWorld ==> DistMore(CentreDistSq(w, h, x, y), p.minRadius))
  }

  /** A boundary change read cell by cell. */
  lemma BoundaryCells(a: Grid, b: Grid, w: int, h: int, p: SimulationParams, lost: real, erased: real)
    requires BoundaryStep(a, b, w, h, p, lost, erased)
    ensures forall y, x :: 0 <= y < h && 0 <= x < w ==> CellMoved(a[y][x], b[y][x], w, h, x, y, p)
  {
    forall y, x | 0 <= y < h && 0 <= x < w ensures CellMoved(a[y][x], b[y][x], w, h, x, y, p) {
      assert MovedAt(a, b, w, h, x, y, p);
    }
  }

  lemma BoundaryStepRefl(a: Grid, w: int, h: int, p: SimulationParams)
    requires Shaped(a, w, h)
    ensures BoundaryStep(a, a, w, h, p, 0.0, 0.0)
  {
  }

  /** Boundary changes compose: their losses add up. */
  lemma BoundaryStepTrans(a: Grid, b: Grid, c: Grid, w: int, h: int, p: SimulationParams,
                          l1: real, e1: real, l2: real, e2: real, lost: real, erased: real)
    requires BoundaryStep(a, b, w, h, p, l1, e1) && BoundaryStep(b, c, w, h, p, l2, e2)
    requires lost == l1 + l2 && erased == e1 + e2
    ensures BoundaryStep(a, c, w, h, p, lost, erased)
  {
    BoundaryCoreTrans(a, b, c, w, h, p, l1, e1, l2, e2);
  }

  /** Two boundary changes with non-negative losses on a non-negative grid compose into one. */
  lemma BoundaryChain(a: Grid, b: Grid, c: Grid, w: int, h: int, p: SimulationParams,
                      l1: real, e1: real, l2: real, e2: real)
    requires BoundaryStep(a, b, w, h, p, l1, e1) && (MantleNonNegative(a) ==> l1 >= 0.0 && e1 >= 0.0)
    requires BoundaryStep(b, c, w, h, p, l2, e2) && (MantleNonNegative(b) ==> l2 >= 0.0 && e2 >= 0.0)
    ensures BoundaryStep(a, c, w, h, p, l1 + l2, e1 + e2) && (MantleNonNegative(a) ==> l1 + l2 >= 0.0 && e1 + e2 >= 0.0)
  {
    BoundaryCoreTrans(a, b, c, w, h, p, l1, e1, l2, e2);
  }

  lemma BoundaryCoreTrans(a: Grid, b: Grid, c: Grid, w: int, h: int, p: SimulationParams,
                          l1: real, e1: real, l2: real, e2: real)
    requires BoundaryCore(a, b, w, h, p, l1, e1) && BoundaryCore(b, c, w, h, p, l2, e2)
    ensures BoundaryCore(a, c, w, h, p, l1 + l2, e1 + e2)
  {
    forall y, x ensures MovedAt(a, c, w, h, x, y, p) {
      assert MovedAt(a, b, w, h, x, y, p) && MovedAt(b, c, w, h, x, y, p);
    }
  }

  /** The EmptyNeighbors list: neighbours outside the world within MaxRadius of the centre, in scan order. */
  function ExpansionTargets(g: Grid, w: int, h: int, ns: seq<Coord>, maxRadius: real): (r: seq<Coord>)
    requires forall c :: c in ns ==> 0 <= c.y < |g| && 0 <= c.x < |g[c.y]|
    ensures forall c :: c in r <==> c in ns && !g[c.y][c.x].inWorld && DistAtMost(CentreDistSq(w, h, c.x, c.y), maxRadius)
  {
    if ns == [] then []
    else
      var c := ns[0];
      (if !g[c.y][c.x].inWorld && DistAtMost(CentreDistSq(w, h, c.x, c.y), maxRadius) then [c] else [])
      + ExpansionTargets(g, w, h, ns[1..], maxRadius)
  }

  /** Growth: the target enters the world with half the cell's energy and the cell keeps the other half. */
  function Grown(a: Grid, x: int, y: int, t: Coord): (b: Grid)
    requires 0 <= y < |a| && 0 <= x < |a[y]| && 0 <= t.y < |a| && 0 <= t.x < |a[t.y]| && t != Coord(x, y)
    ensures |b| == |a| && (forall j :: 0 <= j < |a| ==> |b[j]| == |a[j]|)
    ensures b[t.y][t.x] == a[t.y][t.x].(inWorld := true, mantleEnergy := a[y][x].mantleEnergy / 2.0)
    ensures b[y][x] == a[y][x].(mantleEnergy := a[y][x].mantleEnergy / 2.0)
    ensures forall j, i :: 0 <= j < |a| && 0 <= i < |a[j]| && Coord(i, j) != t && Coord(i, j) != Coord(x, y) ==> b[j][i] == a[j][i]
  {
    var e := a[y][x].mantleEnergy;
    var a1 := Put(a, t.x, t.y, a[t.y][t.x].(inWorld := true, mantleEnergy := e * 0.5));
    Put(a1, x, y, a[y][x].(mantleEnergy := e * 0.5))
  }

  lemma ExpandStep(a: Grid, w: int, h: int, x: int, y: int, t: Coord, p: SimulationParams)
    requires Shaped(a, w, h) && IsValidCoord(w, h, x, y) && IsValidCoord(w, h, t.x, t.y) && t != Coord(x, y)
    requires !a[t.y][t.x].inWorld && DistAtMost(CentreDistSq(w, h, t.x, t.y), p.maxRadius)
    requires a[y][x].inWorld
    ensures BoundaryStep(a, Grown(a, x, y, t), w, h, p, 0.0, a[t.y][t.x].mantleEnergy)
  {
    var e := a[y][x].mantleEnergy;
    var a1: Grid := Put(a, t.x, t.y, a[t.y][t.x].(inWorld := true, mantleEnergy := e * 0.5));
    var a2: Grid := Put(a1, x, y, a[y][x].(mantleEnergy := e * 0.5));
    assert a2 == Grown(a, x, y, t);
    TotalMantlePut(a, t.x, t.y, a[t.y][t.x].(inWorld := true, mantleEnergy := e * 0.5));
    TotalMantlePut(a1, x, y, a[y][x].(mantleEnergy := e * 0.5));
    forall yy, xx ensures MovedAt(a, a2, w, h, xx, yy, p) && (0 <= yy < h && 0 <= xx < w && !a2[yy][xx].inWorld ==> a2[yy][xx] == a[yy][xx])
    {
      if 0 <= yy < h && 0 <= xx < w && Coord(xx, yy) != t && Coord(xx, yy) != Coord(x, y) {
        assert a2[yy][xx] == a[yy][xx];
      }
    }
    assert BoundaryCore(a, a2, w, h, p, 0.0, a[t.y][t.x].mantleEnergy);
  }

  /** Shrink, after the shares are given: the cell leaves the world with no energy and no crystal. */
  lemma LeaveStep(a: Grid, w: int, h: int, x: int, y: int, p: SimulationParams)
    requires Shaped(a, w, h) && IsValidCoord(w, h, x, y) && a[y][x].inWorld
    requires DistMore(CentreDistSq(w, h, x, y), p.minRadius)
    ensures BoundaryStep(a, Put(a, x, y, a[y][x].(inWorld := false, mantleEnergy := 0.0, crystalState := Empty)), w, h, p,
                         a[y][x].mantleEnergy, 0.0)
  {
    TotalMantlePut(a, x, y, a[y][x].(inWorld := false, mantleEnergy := 0.0, crystalState := Empty));
  }

  /** One share given to an in-world neighbour. */
  function Given(a: Grid, n: Coord, share: real): (b: Grid)
    requires 0 <= n.y < |a| && 0 <= n.x < |a[n.y]|
    ensures |b| == |a| && (forall j :: 0 <= j < |a| ==> |b[j]| == |a[j]|)
    ensures b[n.y][n.x].mantleEnergy == a[n.y][n.x].mantleEnergy + share
  {
    Put(a, n.x, n.y, a[n.y][n.x].(mantleEnergy := a[n.y][n.x].mantleEnergy + share))
  }

  lemma ShareStep(a: Grid, w: int, h: int, n: Coord, share: real, p: SimulationParams)
    requires Shaped(a, w, h) && IsValidCoord(w, h, n.x, n.y) && a[n.y][n.x].inWorld
    ensures BoundaryCore(a, Given(a, n, share), w, h, p, -share, 0.0)
    ensures MantleNonNegative(a) && share >= 0.0 ==> MantleNonNegative(Given(a, n, share))
  {
    var b := Given(a, n, share);
    TotalMantlePut(a, n.x, n.y, a[n.y][n.x].(mantleEnergy := a[n.y][n.x].mantleEnergy + share));
    forall y, x | 0 <= y < h && 0 <= x < w ensures MovedAt(a, b, w, h, x, y, p) {
      if y == n.y && x == n.x {
        assert b[y][x] == a[y][x].(mantleEnergy := a[y][x].mantleEnergy + share);
      } else {
        assert b[y][x] == a[y][x];
      }
    }
  }

  /** Every coordinate of ns indexes a cell of a. */
  predicate InGrid(a: Grid, ns: seq<Coord>)
  {
    forall c :: c in ns ==> 0 <= c.y < |a| && 0 <= c.x < |a[c.y]|
  }

  /** The shares given to each of ens in turn. */
  function SpreadAll(a: Grid, ens: seq<Coord>, share: real): (b: Grid)
    requires InGrid(a, ens)
    ensures |b| == |a| && (forall j :: 0 <= j < |a| ==> |b[j]| == |a[j]|)
  {
    if ens == [] then a
    else
      var n := ens[|ens| - 1];
      assert n in ens;
      Given(SpreadAll(a, ens[..|ens| - 1], share), n, share)
  }

  /** The shrinking cell leaves the world with no energy and no crystal. */
  function Leave(a: Grid, x: int, y: int): (b: Grid)
    requires 0 <= y < |a| && 0 <= x < |a[y]|
    ensures |b| == |a| && (forall j :: 0 <= j < |a| ==> |b[j]| == |a[j]|)
    ensures !b[y][x].inWorld && b[y][x].mantleEnergy == 0.0 && b[y][x].crystalState == Empty
  {
    Put(a, x, y, a[y][x].(inWorld := false, mantleEnergy := 0.0, crystalState := Empty))
  }

  /**
   * The shrink redistribution: EnergyPerNeighbor added to every in-world
   * neighbour in turn. The shares add up to `share * |ens|` of new energy and
   * only the listed cells change.
   */
  method SpreadEnergy(g: Grid, w: int, h: int, ens: seq<Coord>, share: real, ghost p: SimulationParams)
    returns (r: Grid)
    requires Shaped(g, w, h)
    requires forall c :: c in ens ==> IsValidCoord(w, h, c.x, c.y) && g[c.y][c.x].inWorld
    requires MantleNonNegative(g) ==> share >= 0.0
    ensures BoundaryStep(g, r, w, h, p, -(share * |ens| as real), 0.0)
    ensures forall y, x :: 0 <= y < h && 0 <= x < w && Coord(x, y) !in ens ==> r[y][x] == g[y][x]
    ensures forall c :: c in ens ==> IsValidCoord(w, h, c.x, c.y) && r[c.y][c.x].inWorld
    ensures InGrid(g, ens) && r == SpreadAll(g, ens, share)
  {
    r := g;
    var i := 0;
    while i < |ens|
      invariant 0 <= i <= |ens| && InGrid(g, ens[..i]) && r == SpreadAll(g, ens[..i], share)
    {
      var n := ens[i];
      assert n in ens;
      assert ens[..i + 1][..i] == ens[..i] && ens[..i + 1][i] == n;
      r := Given(r, n, share);
      i := i + 1;
    }
    assert i == |ens| && ens[..i] == ens;
    SpreadAllSpec(g, w, h, ens, share, p);
  }

  /** After the first i shares: what BoundaryStep says, and only the cells of ens have changed. */
  ghost predicate SpreadSoFar(g: Grid, r: Grid, w: int, h: int, ens: seq<Coord>, share: real, i: nat, p: SimulationParams)
  {
    BoundaryCore(g, r, w, h, p, -SharesGiven(share, i), 0.0)
    && (MantleNonNegative(g) && share >= 0.0 ==> MantleNonNegative(r))
    && (forall y, x :: 0 <= y < h && 0 <= x < w && Coord(x, y) !in ens ==> r[y][x] == g[y][x])
    && (forall c :: c in ens ==> IsValidCoord(w, h, c.x, c.y) && r[c.y][c.x].inWorld)
  }

  /** Giving the shares one neighbour at a time is a boundary change that loses minus the shares given. */
  lemma {:induction false} SpreadAllKeeps(g: Grid, w: int, h: int, ens: seq<Coord>, share: real, p: SimulationParams)
    requires Shaped(g, w, h)
    requires forall c :: c in ens ==> IsValidCoord(w, h, c.x, c.y) && g[c.y][c.x].inWorld
    ensures InGrid(g, ens) && SpreadSoFar(g, SpreadAll(g, ens, share), w, h, ens, share, |ens|, p)
  {
    if ens == [] {
      BoundaryStepRefl(g, w, h, p);
    } else {
      var init: seq<Coord> := ens[..|ens| - 1];
      var n: Coord := ens[|ens| - 1];
      assert n in ens && init + [n] == ens;
      assert forall c :: c in init ==> c in ens;
      SpreadAllKeeps(g, w, h, init, share, p);
      SpreadOneMore(g, SpreadAll(g, init, share), w, h, init, n, share, p);
    }
  }

  /** One more share, to an in-world neighbour n, keeps SpreadSoFar. */
  lemma SpreadOneMore(g: Grid, r: Grid, w: int, h: int, init: seq<Coord>, n: Coord, share: real, p: SimulationParams)
    requires Shaped(g, w, h) && IsValidCoord(w, h, n.x, n.y) && g[n.y][n.x].inWorld
    requires SpreadSoFar(g, r, w, h, init, share, |init|, p)
    ensures SpreadSoFar(g, Given(r, n, share), w, h, init + [n], share, |init + [n]|, p)
  {
    assert r[n.y][n.x].inWorld by {
      if n !in init { assert r[n.y][n.x] == g[n.y][n.x]; }
    }
    ShareStep(r, w, h, n, share, p);
    var r' := Given(r, n, share);
    BoundaryCoreTrans(g, r, r', w, h, p, -SharesGiven(share, |init|), 0.0, -share, 0.0);
    forall y, x | 0 <= y < h && 0 <= x < w && Coord(x, y) !in init + [n] ensures r'[y][x] == g[y][x] {
      assert Coord(x, y) !in init && Coord(x, y) != n;
    }
    forall c | c in init + [n] ensures r'[c.y][c.x].inWorld {
      if c != n { assert c in init; }
    }
  }

  /** The shrink redistribution as a value satisfies everything SpreadEnergy promises. */
  lemma SpreadAllSpec(g: Grid, w: int, h: int, ens: seq<Coord>, share: real, p: SimulationParams)
    requires Shaped(g, w, h)
    requires forall c :: c in ens ==> IsValidCoord(w, h, c.x, c.y) && g[c.y][c.x].inWorld
    requires MantleNonNegative(g) ==> share >= 0.0
    ensures InGrid(g, ens)
    ensures BoundaryStep(g, SpreadAll(g, ens, share), w, h, p, -(share * |ens| as real), 0.0)
    ensures forall y, x :: 0 <= y < h && 0 <= x < w && Coord(x, y) !in ens ==> SpreadAll(g, ens, share)[y][x] == g[y][x]
    ensures forall c :: c in ens ==> IsValidCoord(w, h, c.x, c.y) && SpreadAll(g, ens, share)[c.y][c.x].inWorld
  {
    SpreadAllKeeps(g, w, h, ens, share, p);
    SoFarIsStep(g, SpreadAll(g, ens, share), w, h, ens, share, p);
  }

  /** Once all of ens has its share, the shares given come to share * |ens|. */
  lemma SoFarIsStep(g: Grid, r: Grid, w: int, h: int, ens: seq<Coord>, share: real, p: SimulationParams)
    requires SpreadSoFar(g, r, w, h, ens, share, |ens|, p) && (MantleNonNegative(g) ==> share >= 0.0)
    ensures BoundaryStep(g, r, w, h, p, -(share * |ens| as real), 0.0)
  {
    SharesProduct(share, |ens|);
  }

  /** The energy of n shares, added one at a time. */
  ghost function SharesGiven(share: real, n: nat): real
  {
    if n == 0 then 0.0 else SharesGiven(share, n - 1) + share
  }

  lemma {:induction false} SharesProduct(share: real, n: nat)
    ensures SharesGiven(share, n) == share * n as real
  {
    if n > 0 {
      SharesProduct(share, n - 1);
    }
  }

  /**
   * The boundary decision for the cell at (x, y), on the grid as the pass has
   * left it so far. An edge cell (one with a neighbour outside the world)
   * above ExpansionThreshold grows into the draw-th of its expansion targets;
   * one below ShrinkThreshold and beyond MinRadius shrinks. Any other cell
   * leaves the grid as it was.
   */
  method BoundaryCell(a: Grid, w: int, h: int, x: int, y: int, p: SimulationParams, draw: int)
    returns (b: Grid, ghost lost: real, ghost erased: real)
    requires Shaped(a, w, h) && IsValidCoord(w, h, x, y)
    ensures BoundaryStep(a, b, w, h, p, lost, erased)
    ensures MantleNonNegative(a) ==> lost >= 0.0 && erased >= 0.0
    ensures !a[y][x].inWorld ==> b == a
    ensures a[y][x].inWorld && !b[y][x].inWorld ==> a[y][x].mantleEnergy < p.shrinkThreshold
    ensures b == CellResult(a, w, h, x, y, p, draw)
  {
    b, lost, erased := a, 0.0, 0.0;
    BoundaryStepRefl(a, w, h, p);
    var cell := a[y][x];
    if !cell.inWorld {
      return;
    }
    var ns := GetNeighbors(w, h, x, y);
    NeighborsInGrid(a, w, h, x, y);
    NeighborsValid(w, h, x, y);
    if !SomeOutside(a, ns) {
      return;
    }
    var e := cell.mantleEnergy;
    if e > p.expansionThreshold {
      var empties := ExpansionTargets(a, w, h, ns, p.maxRadius);
      if |empties| > 0 {
        var t := empties[draw % |empties|];
        assert t in ns;
        NeighborsExactly(w, h, x, y, t);
        ExpandStep(a, w, h, x, y, t, p);
        erased := a[t.y][t.x].mantleEnergy;
        b := Grown(a, x, y, t);
      }
    } else if e < p.shrinkThreshold && DistMore(CentreDistSq(w, h, x, y), p.minRadius) {
      b, lost := ShrinkCell(a, w, h, x, y, ns, p);
    }
  }

  /**
   * The boundary decision for (x, y) as a value: an in-world edge cell above
   * ExpansionThreshold grows into the draw-th of its expansion targets (if it
   * has any); one below ShrinkThreshold and beyond MinRadius shrinks; every
   * other cell leaves the grid as it was.
   */
  function CellResult(a: Grid, w: int, h: int, x: int, y: int, p: SimulationParams, draw: int): (b: Grid)
    requires Shaped(a, w, h) && IsValidCoord(w, h, x, y)
    ensures Shaped(b, w, h)
  {
    NeighborsInGrid(a, w, h, x, y);
    var ns := Neighbors(w, h, x, y);
    if !a[y][x].inWorld || !SomeOutside(a, ns) then a
    else if a[y][x].mantleEnergy > p.expansionThreshold then
      var empties := ExpansionTargets(a, w, h, ns, p.maxRadius);
      if |empties| > 0 then
        var t := empties[draw % |empties|];
        assert t in empties;
        NeighborsExactly(w, h, x, y, t);
        Grown(a, x, y, t)
      else a
    else if a[y][x].mantleEnergy < p.shrinkThreshold && DistMore(CentreDistSq(w, h, x, y), p.minRadius) then
      Shrunk(a, w, h, x, y)
    else a
  }

  /** No neighbour of (x, y) is in the world. */
  predicate NoWorldNeighbour(a: Grid, w: int, h: int, x: int, y: int)
    requires Shaped(a, w, h)
  {
    forall c :: c in Neighbors(w, h, x, y) && IsValidCoord(w, h, c.x, c.y) ==> !a[c.y][c.x].inWorld
  }

  /**
   * Shrink: the cell's energy is split equally over its in-world neighbours
   * (and lost when it has none), then the cell leaves the world with no
   * energy and no crystal.
   */
  method ShrinkCell(a: Grid, w: int, h: int, x: int, y: int, ns: seq<Coord>, p: SimulationParams)
    returns (b: Grid, ghost lost: real)
    requires Shaped(a, w, h) && IsValidCoord(w, h, x, y) && a[y][x].inWorld
    requires DistMore(CentreDistSq(w, h, x, y), p.minRadius) && ns == Neighbors(w, h, x, y)
    ensures BoundaryStep(a, b, w, h, p, lost, 0.0) && !b[y][x].inWorld
    ensures MantleNonNegative(a) ==> lost >= 0.0
    ensures lost == if NoWorldNeighbour(a, w, h, x, y) then a[y][x].mantleEnergy else 0.0
    ensures b == Shrunk(a, w, h, x, y)
  {
    NeighborsInGrid(a, w, h, x, y);
    NeighborsValid(w, h, x, y);
    var e := a[y][x].mantleEnergy;
    var ens := InWorldAmong(a, ns);
    assert ens == [] <==> NoWorldNeighbour(a, w, h, x, y) by {
      if ens != [] { assert ens[0] in ens; }
    }
    if |ens| > 0 {
      NeighborsExactly(w, h, x, y, Coord(x, y));
      b := ShareAndLeave(a, w, h, x, y, ens, p);
      lost := 0.0;
    } else {
      LeaveStep(a, w, h, x, y, p);
      b := Put(a, x, y, a[y][x].(inWorld := false, mantleEnergy := 0.0, crystalState := Empty));
      lost := e;
    }
  }

  /**
   * Shrink as a value: the cell's energy in equal shares to its in-world
   * neighbours when it has any, then the cell leaves the world.
   */
  function Shrunk(a: Grid, w: int, h: int, x: int, y: int): (b: Grid)
    requires Shaped(a, w, h) && IsValidCoord(w, h, x, y)
    ensures Shaped(b, w, h)
    ensures !b[y][x].inWorld && b[y][x].mantleEnergy == 0.0 && b[y][x].crystalState == Empty
  {
    NeighborsInGrid(a, w, h, x, y);
    var ens := InWorldAmong(a, Neighbors(w, h, x, y));
    if |ens| > 0 then Leave(SpreadAll(a, ens, a[y][x].mantleEnergy / |ens| as real), x, y)
    else Leave(a, x, y)
  }

  /** Equal shares of an energy over k neighbours add back up to it, and are non-negative when it is. */
  method EnergyPerNeighbour(e: real, k: int) returns (share: real)
    requires k > 0
    ensures share * k as real == e && share == e / k as real
    ensures e >= 0.0 ==> share >= 0.0
  {
    share := e / k as real;
  }

  /** Equal shares of e over k add back up to e, and are non-negative when e is. */
  lemma ShareBack(e: real, k: nat, share: real)
    requires k > 0 && share == e / k as real
    ensures SharesGiven(share, k) == e && (e >= 0.0 ==> share >= 0.0)
  {
    SharesProduct(share, k);
  }

  /** Giving away all of a cell's energy in shares and then leaving loses nothing. */
  lemma SharedThenLeave(a: Grid, spread: Grid, w: int, h: int, x: int, y: int, p: SimulationParams, given: real)
    requires Shaped(spread, w, h) && IsValidCoord(w, h, x, y) && spread[y][x].inWorld
    requires DistMore(CentreDistSq(w, h, x, y), p.minRadius)
    requires BoundaryStep(a, spread, w, h, p, -given, 0.0) && given == spread[y][x].mantleEnergy
    ensures BoundaryStep(a, Leave(spread, x, y), w, h, p, 0.0, 0.0)
  {
    LeaveStep(spread, w, h, x, y, p);
    BoundaryStepTrans(a, spread, Leave(spread, x, y), w, h, p, -given, 0.0, spread[y][x].mantleEnergy, 0.0, 0.0, 0.0);
  }

  /** The shrink of a cell with in-world neighbours: EnergyPerNeighbor to each of them, then the cell leaves. */
  method ShareAndLeave(a: Grid, w: int, h: int, x: int, y: int, ens: seq<Coord>, p: SimulationParams)
    returns (b: Grid)
    requires Shaped(a, w, h) && IsValidCoord(w, h, x, y) && a[y][x].inWorld
    requires DistMore(CentreDistSq(w, h, x, y), p.minRadius) && |ens| > 0 && Coord(x, y) !in ens
    requires forall c :: c in ens ==> IsValidCoord(w, h, c.x, c.y) && a[c.y][c.x].inWorld
    ensures BoundaryStep(a, b, w, h, p, 0.0, 0.0) && !b[y][x].inWorld
    ensures InGrid(a, ens) && b == Leave(SpreadAll(a, ens, a[y][x].mantleEnergy / |ens| as real), x, y)
  {
    var e := a[y][x].mantleEnergy;
    var shared := EnergyPerNeighbour(e, |ens|);
    assert MantleNonNegative(a) ==> e >= 0.0;
    var spread := SpreadEnergy(a, w, h, ens, shared, p);
    ghost var given := shared * |ens| as real;
    assert spread[y][x] == a[y][x] && given == e;
    SharedThenLeave(a, spread, w, h, x, y, p, given);
    b := Leave(spread, x, y);
  }

  /**
   * The whole boundary pass, cell by cell in raster order with the pick
   * oracle standing in for RandRange(0, |EmptyNeighbors| - 1).
   */
  method BoundaryPass(g: Grid, w: int, h: int, p: SimulationParams, pick: (int, int) -> int)
    returns (r: Grid, ghost lost: real, ghost erased: real)
    requires Shaped(g, w, h)
    ensures BoundaryStep(g, r, w, h, p, lost, erased)
    ensures MantleNonNegative(g) ==> lost >= 0.0 && erased >= 0.0
    ensures r == BoundaryResult(g, w, h, p, pick)
  {
    r := g;
    var y := 0;
    while y < h
      invariant 0 <= y <= h && r == PassRows(g, w, h, p, pick, y)
    {
      r := BoundaryRow(r, w, h, y, p, pick);
      y := y + 1;
    }
    assert y == h;
    lost, erased := PassRowsKeeps(g, w, h, p, pick, h);
  }

  /** One row of the boundary pass, left to right. */
  method BoundaryRow(a: Grid, w: int, h: int, y: int, p: SimulationParams, pick: (int, int) -> int) returns (r: Grid)
    requires Shaped(a, w, h) && 0 <= y < h
    ensures r == PassRow(a, w, h, y, w, p, pick)
  {
    r := a;
    var x := 0;
    while x < w
      invariant 0 <= x <= w && r == PassRow(a, w, h, y, x, p, pick)
    {
      ghost var dl, de;
      r, dl, de := BoundaryCell(r, w, h, x, y, p, pick(x, y));
      x := x + 1;
    }
    assert x == w;
  }

  /** The boundary decision for one cell, as a value, is a boundary change. */
  lemma CellResultKeeps(a: Grid, w: int, h: int, x: int, y: int, p: SimulationParams, draw: int)
    returns (lost: real, erased: real)
    requires Shaped(a, w, h) && IsValidCoord(w, h, x, y)
    ensures BoundaryStep(a, CellResult(a, w, h, x, y, p, draw), w, h, p, lost, erased)
    ensures MantleNonNegative(a) ==> lost >= 0.0 && erased >= 0.0
  {
    lost, erased := 0.0, 0.0;
    BoundaryStepRefl(a, w, h, p);
    NeighborsInGrid(a, w, h, x, y);
    NeighborsValid(w, h, x, y);
    var ns := Neighbors(w, h, x, y);
    if !a[y][x].inWorld || !SomeOutside(a, ns) {
    } else if a[y][x].mantleEnergy > p.expansionThreshold {
      var empties := ExpansionTargets(a, w, h, ns, p.maxRadius);
      if |empties| > 0 {
        var t := empties[draw % |empties|];
        assert t in empties;
        NeighborsExactly(w, h, x, y, t);
        ExpandStep(a, w, h, x, y, t, p);
        erased := a[t.y][t.x].mantleEnergy;
      }
    } else if a[y][x].mantleEnergy < p.shrinkThreshold && DistMore(CentreDistSq(w, h, x, y), p.minRadius) {
      lost := ShrunkKeeps(a, w, h, x, y, p);
    }
  }

  /** Shrinking, as a value, is a boundary change that loses the energy only when no neighbour takes it. */
  lemma ShrunkKeeps(a: Grid, w: int, h: int, x: int, y: int, p: SimulationParams) returns (lost: real)
    requires Shaped(a, w, h) && IsValidCoord(w, h, x, y) && a[y][x].inWorld
    requires DistMore(CentreDistSq(w, h, x, y), p.minRadius)
    ensures BoundaryStep(a, Shrunk(a, w, h, x, y), w, h, p, lost, 0.0)
    ensures MantleNonNegative(a) ==> lost >= 0.0
  {
    NeighborsInGrid(a, w, h, x, y);
    NeighborsValid(w, h, x, y);
    var e := a[y][x].mantleEnergy;
    assert MantleNonNegative(a) ==> e >= 0.0;
    var ens := InWorldAmong(a, Neighbors(w, h, x, y));
    if |ens| > 0 {
      NeighborsExactly(w, h, x, y, Coord(x, y));
      var share := e / |ens| as real;
      SpreadAllKeeps(a, w, h, ens, share, p);
      ShareBack(e, |ens|, share);
      var spread := SpreadAll(a, ens, share);
      assert spread[y][x] == a[y][x];
      SharedThenLeave(a, spread, w, h, x, y, p, SharesGiven(share, |ens|));
      lost := 0.0;
    } else {
      LeaveStep(a, w, h, x, y, p);
      lost := e;
    }
  }

  /** A boundary change followed by one more cell's decision is still one. */
  lemma CellAfter(a: Grid, prev: Grid, w: int, h: int, x: int, y: int, p: SimulationParams, draw: int, l1: real, e1: real)
    returns (lost: real, erased: real)
    requires Shaped(prev, w, h) && IsValidCoord(w, h, x, y)
    requires BoundaryStep(a, prev, w, h, p, l1, e1) && (MantleNonNegative(a) ==> l1 >= 0.0 && e1 >= 0.0)
    ensures BoundaryStep(a, CellResult(prev, w, h, x, y, p, draw), w, h, p, lost, erased)
    ensures MantleNonNegative(a) ==> lost >= 0.0 && erased >= 0.0
  {
    var l2, e2 := CellResultKeeps(prev, w, h, x, y, p, draw);
    BoundaryChain(a, prev, CellResult(prev, w, h, x, y, p, draw), w, h, p, l1, e1, l2, e2);
    lost, erased := l1 + l2, e1 + e2;
  }

  /** One more cell of the row keeps the row so far a boundary change. */
  lemma PassRowStep(a: Grid, w: int, h: int, y: int, x: int, p: SimulationParams, pick: (int, int) -> int, l1: real, e1: real)
    returns (lost: real, erased: real)
    requires Shaped(a, w, h) && 0 <= y < h && 0 < x <= w
    requires BoundaryStep(a, PassRow(a, w, h, y, x - 1, p, pick), w, h, p, l1, e1)
    requires MantleNonNegative(a) ==> l1 >= 0.0 && e1 >= 0.0
    ensures BoundaryStep(a, PassRow(a, w, h, y, x, p, pick), w, h, p, lost, erased)
    ensures MantleNonNegative(a) ==> lost >= 0.0 && erased >= 0.0
  {
    lost, erased := CellAfter(a, PassRow(a, w, h, y, x - 1, p, pick), w, h, x - 1, y, p, pick(x - 1, y), l1, e1);
  }

  /** The first x cells of a row, as a value, make a boundary change. */
  lemma {:induction false} PassRowKeeps(a: Grid, w: int, h: int, y: int, x: int, p: SimulationParams, pick: (int, int) -> int)
    returns (lost: real, erased: real)
    requires Shaped(a, w, h) && 0 <= y < h && 0 <= x <= w
    ensures BoundaryStep(a, PassRow(a, w, h, y, x, p, pick), w, h, p, lost, erased)
    ensures MantleNonNegative(a) ==> lost >= 0.0 && erased >= 0.0
    decreases x
  {
    if x == 0 {
      lost, erased := 0.0, 0.0;
      BoundaryStepRefl(a, w, h, p);
    } else {
      var l1, e1 := PassRowKeeps(a, w, h, y, x - 1, p, pick);
      lost, erased := PassRowStep(a, w, h, y, x, p, pick, l1, e1);
    }
  }

  /** The first y rows, as a value, make a boundary change. */
  lemma {:induction false} PassRowsKeeps(g: Grid, w: int, h: int, p: SimulationParams, pick: (int, int) -> int, y: int)
    returns (lost: real, erased: real)
    requires Shaped(g, w, h) && 0 <= y <= h
    ensures BoundaryStep(g, PassRows(g, w, h, p, pick, y), w, h, p, lost, erased)
    ensures MantleNonNegative(g) ==> lost >= 0.0 && erased >= 0.0
    decreases y
  {
    if y == 0 {
      lost, erased := 0.0, 0.0;
      BoundaryStepRefl(g, w, h, p);
    } else {
      var l1, e1 := PassRowsKeeps(g, w, h, p, pick, y - 1);
      var prev := PassRows(g, w, h, p, pick, y - 1);
      var l2, e2 := PassRowKeeps(prev, w, h, y - 1, w, p, pick);
      var cur := PassRow(prev, w, h, y - 1, w, p, pick);
      assert cur == PassRows(g, w, h, p, pick, y);
      lost, erased := l1 + l2, e1 + e2;
      BoundaryChain(g, prev, cur, w, h, p, l1, e1, l2, e2);
    }
  }

  /** The cells of row y before x, each decided on the grid the earlier ones left. */
  function PassRow(a: Grid, w: int, h: int, y: int, x: int, p: SimulationParams, pick: (int, int) -> int): (b: Grid)
    requires Shaped(a, w, h) && 0 <= y < h && 0 <= x <= w
    ensures Shaped(b, w, h)
    decreases x
  {
    if x == 0 then a
    else CellResult(PassRow(a, w, h, y, x - 1, p, pick), w, h, x - 1, y, p, pick(x - 1, y))
  }

  /** The rows before y, in order. */
  function PassRows(g: Grid, w: int, h: int, p: SimulationParams, pick: (int, int) -> int, y: int): (b: Grid)
    requires Shaped(g, w, h) && 0 <= y <= h
    ensures Shaped(b, w, h)
    decreases y
  {
    if y == 0 then g
    else PassRow(PassRows(g, w, h, p, pick, y - 1), w, h, y - 1, w, p, pick)
  }

  /** The grid after the whole boundary pass. */
  function BoundaryResult(g: Grid, w: int, h: int, p: SimulationParams, pick: (int, int) -> int): (b: Grid)
    requires Shaped(g, w, h)
    ensures Shaped(b, w, h)
  {
    PassRows(g, w, h, p, pick, h)
  }
}
