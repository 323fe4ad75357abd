/** The diffusion step of UpdateMantleLayer: pairwise energy flows with a slow migration bias. */
module MantleDiffusion {
  import opened UnrealMath
  import opened WorldMorphingTypes
  import opened WorldGrid

  /** The fixed diffusion coefficient of the mantle step. */
  const DiffusionCoeff: real := 0.2

  /** The ceiling the diffusion application clamps mantle energy to. */
  const MaxMantleEnergy: real := 150.0

  // ---------------------------------------------------------------------
  // 1. Diffusion.

  /**
   * The flow one in-world cell books towards one in-world neighbour: a share
   * of the energy difference plus the migration bias along the offset (dx, dy),
   * clamped to [-2, 2].
   */
  function PairFlow(cellEnergy: real, neighbourEnergy: real, dx: int, dy: int, biasX: real, biasY: real): (f: real)
    ensures -2.0 <= f <= 2.0
  {
    Clamp((neighbourEnergy - cellEnergy) * DiffusionCoeff * 0.1
          + (dx as real * biasX + dy as real * biasY) * 0.05, -2.0, 2.0)
  }

  /**
   * Seen from the other end, the flow of a pair is the same amount in the
   * opposite sign, so each pair of in-world neighbours books its flow twice.
   */
  lemma PairFlowAntisymmetric(a: real, b: real, dx: int, dy: int, biasX: real, biasY: real)
    ensures PairFlow(b, a, -dx, -dy, biasX, biasY) == -PairFlow(a, b, dx, dy, biasX, biasY)
  {
    var raw := (b - a) * DiffusionCoeff * 0.1 + (dx as real * biasX + dy as real * biasY) * 0.05;
    assert (a - b) * DiffusionCoeff * 0.1 + ((-dx) as real * biasX + (-dy) as real * biasY) * 0.05 == -raw;
  }

  /** A flow buffer over the grid that sums to zero and holds nothing off-world. */
  predicate Balanced(g: Grid, changes: Field, w: int, h: int)
    requires Shaped(g, w, h)
  {
    FieldShaped(changes, w, h) && FieldSum(changes) == 0.0
    && forall y, x :: 0 <= y < h && 0 <= x < w && !g[y][x].inWorld ==> changes[y][x] == 0.0
  }

  /** The migration bias of the step: sine and cosine of half of TimeStep * MantleTimeScale. */
  function BiasX(timeStep: int, p: SimulationParams, m: MathFns): real
  {
    m.sin(timeStep as real * p.mantleTimeScale * 0.5)
  }

  function BiasY(timeStep: int, p: SimulationParams, m: MathFns): real
  {
    m.cos(timeStep as real * p.mantleTimeScale * 0.5)
  }

  /** Every coordinate of ns indexes a cell of g. */
  predicate InGrid(g: Grid, ns: seq<Coord>)
  {
    forall n :: n in ns ==> 0 <= n.y < |g| && 0 <= n.x < |g[n.y]|
  }

  predicate Distinct(s: seq<Coord>)
  {
    forall i, j :: 0 <= i < j < |s| ==> s[i] != s[j]
  }

  /** The in-world neighbours of (x, y), in GetNeighbors order. */
  function InWorldNeighbours(g: Grid, w: int, h: int, x: int, y: int): (r: seq<Coord>)
    requires Shaped(g, w, h)
    ensures forall c :: c in r ==> IsValidCoord(w, h, c.x, c.y) && g[c.y][c.x].inWorld
    ensures InGrid(g, r)
  {
    NeighborsValid(w, h, x, y);
    InWorldAmong(g, Neighbors(w, h, x, y))
  }

  /** Each neighbour appears once, (x, y) itself never, and the relation is symmetric between in-world cells. */
  lemma InWorldNeighboursIs(g: Grid, w: int, h: int, x: int, y: int, c: Coord)
    requires Shaped(g, w, h)
    ensures Distinct(InWorldNeighbours(g, w, h, x, y))
    ensures c in InWorldNeighbours(g, w, h, x, y) <==>
      IsValidCoord(w, h, c.x, c.y) && Adjacent(c, Coord(x, y)) && g[c.y][c.x].inWorld
  {
    NeighborsExactly(w, h, x, y, c);
    NeighborsDistinct(w, h, x, y);
    NeighborsValid(w, h, x, y);
    InWorldAmongDistinct(g, Neighbors(w, h, x, y));
  }

  lemma {:induction false} InWorldAmongDistinct(g: Grid, ns: seq<Coord>)
    requires forall c :: c in ns ==> 0 <= c.y < |g| && 0 <= c.x < |g[c.y]|
    requires Distinct(ns)
    ensures Distinct(InWorldAmong(g, ns))
  {
    if ns != [] {
      InWorldAmongDistinct(g, ns[1..]);
      assert ns[0] !in ns[1..] by {
        forall i | 0 <= i < |ns| - 1 ensures ns[1..][i] != ns[0] { assert ns[1..][i] == ns[i + 1]; }
      }
      var r := InWorldAmong(g, ns);
      var rest := InWorldAmong(g, ns[1..]);
      if g[ns[0].y][ns[0].x].inWorld {
        assert r == [ns[0]] + rest;
        forall i, j | 0 <= i < j < |r| ensures r[i] != r[j] {
          if i == 0 { assert r[j] == rest[j - 1] && rest[j - 1] in rest; }
          else { assert r[i] == rest[i - 1] && r[j] == rest[j - 1]; }
        }
      } else {
        assert r == rest;
      }
    }
  }

  /** The pair flow the in-world cell c books for its neighbour n. */
  function Flow(g: Grid, biasX: real, biasY: real, c: Coord, n: Coord): real
    requires 0 <= c.y < |g| && 0 <= c.x < |g[c.y]| && 0 <= n.y < |g| && 0 <= n.x < |g[n.y]|
  {
    PairFlow(g[c.y][c.x].mantleEnergy, g[n.y][n.x].mantleEnergy, n.x - c.x, n.y - c.y, biasX, biasY)
  }

  /** The flows c books towards each of ns, summed. */
  function OutSum(g: Grid, biasX: real, biasY: real, c: Coord, ns: seq<Coord>): real
    requires 0 <= c.y < |g| && 0 <= c.x < |g[c.y]|
    requires InGrid(g, ns)
  {
    if ns == [] then 0.0
    else OutSum(g, biasX, biasY, c, ns[..|ns| - 1]) + Flow(g, biasX, biasY, c, ns[|ns| - 1])
  }

  /** The flows that those of ns scanned before (y, x) have booked onto q, summed. */
  function InSum(g: Grid, biasX: real, biasY: real, q: Coord, ns: seq<Coord>, y: int, x: int): real
    requires 0 <= q.y < |g| && 0 <= q.x < |g[q.y]|
    requires InGrid(g, ns)
  {
    if ns == [] then 0.0
    else
      var n := ns[|ns| - 1];
      InSum(g, biasX, biasY, q, ns[..|ns| - 1], y, x) - (if Before(n.y, n.x, y, x) then Flow(g, biasX, biasY, n, q) else 0.0)
  }

  /**
   * EnergyChanges[qy][qx] once the scan has visited the cells before (y, x):
   * the in-world cell's own flows once it has been visited, plus what each
   * visited in-world neighbour has booked onto it.
   */
  function Booked(g: Grid, w: int, h: int, biasX: real, biasY: real, qx: int, qy: int, y: int, x: int): real
    requires Shaped(g, w, h) && IsValidCoord(w, h, qx, qy)
  {
    var q := Coord(qx, qy);
    var ens := InWorldNeighbours(g, w, h, qx, qy);
    if !g[qy][qx].inWorld then 0.0
    else (if Before(qy, qx, y, x) then OutSum(g, biasX, biasY, q, ens) else 0.0) + InSum(g, biasX, biasY, q, ens, y, x)
  }

  predicate BookedUpTo(g: Grid, w: int, h: int, biasX: real, biasY: real, changes: Field, y: int, x: int)
    requires Shaped(g, w, h)
  {
    FieldShaped(changes, w, h)
    && forall qy, qx :: 0 <= qy < h && 0 <= qx < w ==> changes[qy][qx] == Booked(g, w, h, biasX, biasY, qx, qy, y, x)
  }

  /**
   * The EnergyChanges entry of (x, y) after the diffusion step: for an
   * in-world cell, twice the sum of the pair flows from the cell to its
   * in-world neighbours, because every pair books its flow from both ends;
   * zero off-world.
   */
  function DiffusionAt(g: Grid, w: int, h: int, biasX: real, biasY: real, x: int, y: int): real
    requires Shaped(g, w, h) && IsValidCoord(w, h, x, y)
  {
    if g[y][x].inWorld then 2.0 * OutSum(g, biasX, biasY, Coord(x, y), InWorldNeighbours(g, w, h, x, y)) else 0.0
  }

  /**
   * The EnergyChanges buffer: every in-world cell with in-world neighbours
   * books, for each of them, the pair flow onto itself and its negation onto
   * the neighbour. The buffer therefore sums to zero, stays zero off-world,
   * and holds DiffusionAt in every entry.
   */
  method DiffusionChanges(g: Grid, w: int, h: int, timeStep: int, p: SimulationParams, m: MathFns)
    returns (changes: Field)
    requires Shaped(g, w, h)
    ensures FieldShaped(changes, w, h)
    ensures FieldSum(changes) == 0.0
    ensures forall y, x :: 0 <= y < h && 0 <= x < w && !g[y][x].inWorld ==> changes[y][x] == 0.0
    ensures forall y, x :: 0 <= y < h && 0 <= x < w ==>
      changes[y][x] == DiffusionAt(g, w, h, BiasX(timeStep, p, m), BiasY(timeStep, p, m), x, y)
  {
    ghost var bX, bY := BiasX(timeStep, p, m), BiasY(timeStep, p, m);
    changes := Zeros(w, h);
    FieldSumZeros(w, h);
    BookedStart(g, w, h, bX, bY, changes);
    var y := 0;
    while y < h
      invariant 0 <= y <= h
      invariant ScanState(g, w, h, bX, bY, changes, y, 0)
    {
      changes := BookRow(g, w, h, y, timeStep, p, m, changes);
      y := y + 1;
    }
    assert y == h;
    BookedEnd(g, w, h, bX, bY, changes);
  }

  /** The buffer is balanced and booked for every cell before (y, x). */
  predicate ScanState(g: Grid, w: int, h: int, biasX: real, biasY: real, changes: Field, y: int, x: int)
  {
    Shaped(g, w, h) && Balanced(g, changes, w, h) && BookedUpTo(g, w, h, biasX, biasY, changes, y, x)
  }

  /** The scan over row y. */
  method BookRow(g: Grid, w: int, h: int, y: int, timeStep: int, p: SimulationParams, m: MathFns, changes: Field)
    returns (r: Field)
    requires 0 <= y < h && ScanState(g, w, h, BiasX(timeStep, p, m), BiasY(timeStep, p, m), changes, y, 0)
    ensures ScanState(g, w, h, BiasX(timeStep, p, m), BiasY(timeStep, p, m), r, y + 1, 0)
  {
    r := changes;
    var x := 0;
    while x < w
      invariant 0 <= x <= w
      invariant ScanState(g, w, h, BiasX(timeStep, p, m), BiasY(timeStep, p, m), r, y, x)
    {
      r := BookCell(g, w, h, x, y, timeStep, p, m, r);
      x := x + 1;
    }
    assert x == w;
    BookedRowEnd(g, w, h, BiasX(timeStep, p, m), BiasY(timeStep, p, m), r, y);
  }

  /** The body of the scan for the cell (x, y). */
  method BookCell(g: Grid, w: int, h: int, x: int, y: int, timeStep: int, p: SimulationParams, m: MathFns, changes: Field)
    returns (r: Field)
    requires IsValidCoord(w, h, x, y) && ScanState(g, w, h, BiasX(timeStep, p, m), BiasY(timeStep, p, m), changes, y, x)
    ensures ScanState(g, w, h, BiasX(timeStep, p, m), BiasY(timeStep, p, m), r, y, x + 1)
  {
    r := changes;
    ghost var bX, bY := BiasX(timeStep, p, m), BiasY(timeStep, p, m);
    if g[y][x].inWorld {
      var ns := GetNeighbors(w, h, x, y);
      NeighborsInGrid(g, w, h, x, y);
      var ens := InWorldAmong(g, ns);
      assert ens == InWorldNeighbours(g, w, h, x, y);
      InWorldNeighboursIs(g, w, h, x, y, Coord(x, y));
      if |ens| > 0 {
        var biasX := BiasX(timeStep, p, m);
        var biasY := BiasY(timeStep, p, m);
        r := BookFlows(g, w, h, x, y, ens, biasX, biasY, changes);
      } else {
        assert Bookings(g, w, h, bX, bY, x, y, ens, changes, r);
      }
    }
    BookedAfter(g, w, h, bX, bY, x, y, changes, r);
  }

  /** r is changes with the bookings of the cell (x, y) towards each of ens added. */
  predicate Bookings(g: Grid, w: int, h: int, biasX: real, biasY: real, x: int, y: int, ens: seq<Coord>, changes: Field, r: Field)
    requires Shaped(g, w, h) && IsValidCoord(w, h, x, y) && InGrid(g, ens)
  {
    FieldShaped(changes, w, h) && FieldShaped(r, w, h)
    && forall qy, qx :: 0 <= qy < h && 0 <= qx < w ==>
      r[qy][qx] == changes[qy][qx]
        + (if qx == x && qy == y then OutSum(g, biasX, biasY, Coord(x, y), ens) else 0.0)
        - (if Coord(qx, qy) in ens then Flow(g, biasX, biasY, Coord(x, y), Coord(qx, qy)) else 0.0)
  }

  /** A buffer that took the bookings of (x, y) onto one that was booked up to (x, y) is booked up to the next cell. */
  lemma BookedAfter(g: Grid, w: int, h: int, biasX: real, biasY: real, x: int, y: int, changes: Field, r: Field)
    requires Shaped(g, w, h) && IsValidCoord(w, h, x, y)
    requires BookedUpTo(g, w, h, biasX, biasY, changes, y, x)
    requires if g[y][x].inWorld then Bookings(g, w, h, biasX, biasY, x, y, InWorldNeighbours(g, w, h, x, y), changes, r)
             else r == changes
    ensures BookedUpTo(g, w, h, biasX, biasY, r, y, x + 1)
  {
    forall qy, qx | 0 <= qy < h && 0 <= qx < w
      ensures r[qy][qx] == Booked(g, w, h, biasX, biasY, qx, qy, y, x + 1)
    {
      BookedStep(g, w, h, biasX, biasY, x, y, qx, qy);
    }
  }

  /** The flows of the in-world cell (x, y) towards each of its in-world neighbours ens, booked in order. */
  method BookFlows(g: Grid, w: int, h: int, x: int, y: int, ens: seq<Coord>, biasX: real, biasY: real, changes: Field)
    returns (r: Field)
    requires Shaped(g, w, h) && IsValidCoord(w, h, x, y) && g[y][x].inWorld
    requires forall n :: n in ens ==> IsValidCoord(w, h, n.x, n.y) && g[n.y][n.x].inWorld
    requires Distinct(ens) && Coord(x, y) !in ens && InGrid(g, ens)
    requires Balanced(g, changes, w, h)
    ensures Balanced(g, r, w, h)
    // the cell gains all its flows, each neighbour loses the flow booked towards it, nothing else moves
    ensures Bookings(g, w, h, biasX, biasY, x, y, ens, changes, r)
  {
    r := changes;
    var i := 0;
    while i < |ens|
      invariant 0 <= i <= |ens|
      invariant Balanced(g, r, w, h) && Bookings(g, w, h, biasX, biasY, x, y, ens[..i], changes, r)
    {
      var n := ens[i];
      assert n in ens;
      var flow := PairFlow(g[y][x].mantleEnergy, g[n.y][n.x].mantleEnergy, n.x - x, n.y - y, biasX, biasY);
      assert flow == Flow(g, biasX, biasY, Coord(x, y), n);
      BookOne(g, w, h, x, y, ens, biasX, biasY, changes, r, i, n);
      FieldSumAddAt(r, x, y, flow);
      r := AddAt(r, x, y, flow);
      FieldSumAddAt(r, n.x, n.y, -flow);
      r := AddAt(r, n.x, n.y, -flow);
      i := i + 1;
    }
    assert i == |ens| && ens[..i] == ens;
  }

  /** One booking of BookFlows keeps its invariant for the next neighbour. */
  lemma BookOne(g: Grid, w: int, h: int, x: int, y: int, ens: seq<Coord>, biasX: real, biasY: real,
                changes: Field, r: Field, i: int, n: Coord)
    requires Shaped(g, w, h) && IsValidCoord(w, h, x, y) && InGrid(g, ens)
    requires Distinct(ens) && Coord(x, y) !in ens && 0 <= i < |ens| && n == ens[i] && IsValidCoord(w, h, n.x, n.y)
    requires Bookings(g, w, h, biasX, biasY, x, y, ens[..i], changes, r)
    ensures var flow := Flow(g, biasX, biasY, Coord(x, y), n);
      Bookings(g, w, h, biasX, biasY, x, y, ens[..i + 1], changes, AddAt(AddAt(r, x, y, flow), n.x, n.y, -flow))
  {
    assert n in ens;
    assert ens[..i + 1] == ens[..i] + [n];
    assert ens[..i + 1][..i] == ens[..i];
    assert n !in ens[..i] by {
      forall j | 0 <= j < i ensures ens[..i][j] != n { assert ens[..i][j] == ens[j]; }
    }
  }

  /** Before the scan every entry is zero, as Booked says for the cells before (0, 0). */
  lemma BookedStart(g: Grid, w: int, h: int, biasX: real, biasY: real, changes: Field)
    requires Shaped(g, w, h) && h >= 0 && changes == Zeros(w, h)
    ensures BookedUpTo(g, w, h, biasX, biasY, changes, 0, 0)
  {
    forall qy, qx | 0 <= qy < h && 0 <= qx < w
      ensures changes[qy][qx] == Booked(g, w, h, biasX, biasY, qx, qy, 0, 0)
    {
      InSumNone(g, biasX, biasY, Coord(qx, qy), InWorldNeighbours(g, w, h, qx, qy));
    }
  }

  lemma {:induction false} InSumNone(g: Grid, biasX: real, biasY: real, q: Coord, ns: seq<Coord>)
    requires 0 <= q.y < |g| && 0 <= q.x < |g[q.y]|
    requires InGrid(g, ns)
    ensures InSum(g, biasX, biasY, q, ns, 0, 0) == 0.0
  {
    if ns != [] {
      assert ns[|ns| - 1] in ns;
      InSumNone(g, biasX, biasY, q, ns[..|ns| - 1]);
    }
  }

  /** Visiting the cell (x, y) adds one term to InSum when it is among ns. */
  lemma {:induction false} InSumStep(g: Grid, biasX: real, biasY: real, q: Coord, ns: seq<Coord>, y: int, x: int)
    requires 0 <= q.y < |g| && 0 <= q.x < |g[q.y]| && 0 <= y < |g| && 0 <= x < |g[y]|
    requires InGrid(g, ns) && Distinct(ns)
    ensures InSum(g, biasX, biasY, q, ns, y, x + 1) ==
      InSum(g, biasX, biasY, q, ns, y, x) - (if Coord(x, y) in ns then Flow(g, biasX, biasY, Coord(x, y), q) else 0.0)
  {
    if ns != [] {
      var init := ns[..|ns| - 1];
      var n := ns[|ns| - 1];
      assert n in ns;
      assert Distinct(init);
      InSumStep(g, biasX, biasY, q, init, y, x);
      assert forall c :: c in ns <==> c in init || c == n;
      if n == Coord(x, y) {
        assert n !in init by {
          forall j | 0 <= j < |init| ensures init[j] != n { assert init[j] == ns[j]; }
        }
      }
    }
  }

  /** At the end of a row, the cells before (y, Width) are the cells before (y + 1, 0). */
  lemma {:induction false} InSumRowEnd(g: Grid, w: int, biasX: real, biasY: real, q: Coord, ns: seq<Coord>, y: int)
    requires 0 <= q.y < |g| && 0 <= q.x < |g[q.y]|
    requires InGrid(g, ns) && forall n :: n in ns ==> n.x < w
    ensures InSum(g, biasX, biasY, q, ns, y, w) == InSum(g, biasX, biasY, q, ns, y + 1, 0)
  {
    if ns != [] {
      assert ns[|ns| - 1] in ns;
      InSumRowEnd(g, w, biasX, biasY, q, ns[..|ns| - 1], y);
    }
  }

  /** Once every neighbour has been visited, what they booked onto q equals q's own flows. */
  lemma {:induction false} InSumAll(g: Grid, h: int, biasX: real, biasY: real, q: Coord, ns: seq<Coord>)
    requires 0 <= q.y < |g| && 0 <= q.x < |g[q.y]|
    requires InGrid(g, ns) && forall n :: n in ns ==> n.y < h
    ensures InSum(g, biasX, biasY, q, ns, h, 0) == OutSum(g, biasX, biasY, q, ns)
  {
    if ns != [] {
      var n := ns[|ns| - 1];
      assert n in ns;
      InSumAll(g, h, biasX, biasY, q, ns[..|ns| - 1]);
      FlowAntisymmetric(g, biasX, biasY, q, n);
    }
  }

  lemma FlowAntisymmetric(g: Grid, biasX: real, biasY: real, c: Coord, n: Coord)
    requires 0 <= c.y < |g| && 0 <= c.x < |g[c.y]| && 0 <= n.y < |g| && 0 <= n.x < |g[n.y]|
    ensures Flow(g, biasX, biasY, n, c) == -Flow(g, biasX, biasY, c, n)
  {
    var dx, dy := n.x - c.x, n.y - c.y;
    assert c.x - n.x == -dx && c.y - n.y == -dy;
    PairFlowAntisymmetric(g[c.y][c.x].mantleEnergy, g[n.y][n.x].mantleEnergy, dx, dy, biasX, biasY);
  }

  /** Visiting (x, y) changes Booked only at (x, y) itself and at its in-world neighbours, as BookFlows does. */
  lemma BookedStep(g: Grid, w: int, h: int, biasX: real, biasY: real, x: int, y: int, qx: int, qy: int)
    requires Shaped(g, w, h) && IsValidCoord(w, h, x, y) && IsValidCoord(w, h, qx, qy)
    ensures var c := Coord(x, y); var ens := InWorldNeighbours(g, w, h, x, y);
      Booked(g, w, h, biasX, biasY, qx, qy, y, x + 1) ==
        Booked(g, w, h, biasX, biasY, qx, qy, y, x)
        + (if g[y][x].inWorld && qx == x && qy == y then OutSum(g, biasX, biasY, c, ens) else 0.0)
        - (if g[y][x].inWorld && Coord(qx, qy) in ens then Flow(g, biasX, biasY, c, Coord(qx, qy)) else 0.0)
  {
    var q := Coord(qx, qy);
    var c := Coord(x, y);
    InWorldNeighboursIs(g, w, h, qx, qy, c);
    InWorldNeighboursIs(g, w, h, x, y, q);
    InSumStep(g, biasX, biasY, q, InWorldNeighbours(g, w, h, qx, qy), y, x);
  }

  lemma BookedRowEnd(g: Grid, w: int, h: int, biasX: real, biasY: real, changes: Field, y: int)
    requires Shaped(g, w, h) && BookedUpTo(g, w, h, biasX, biasY, changes, y, w)
    ensures BookedUpTo(g, w, h, biasX, biasY, changes, y + 1, 0)
  {
    forall qy, qx | 0 <= qy < h && 0 <= qx < w
      ensures Booked(g, w, h, biasX, biasY, qx, qy, y, w) == Booked(g, w, h, biasX, biasY, qx, qy, y + 1, 0)
    {
      InSumRowEnd(g, w, biasX, biasY, Coord(qx, qy), InWorldNeighbours(g, w, h, qx, qy), y);
    }
  }

  lemma BookedEnd(g: Grid, w: int, h: int, biasX: real, biasY: real, changes: Field)
    requires Shaped(g, w, h) && BookedUpTo(g, w, h, biasX, biasY, changes, h, 0)
    ensures forall y, x :: 0 <= y < h && 0 <= x < w ==> changes[y][x] == DiffusionAt(g, w, h, biasX, biasY, x, y)
  {
    forall qy, qx | 0 <= qy < h && 0 <= qx < w ensures changes[qy][qx] == DiffusionAt(g, w, h, biasX, biasY, qx, qy) {
      InSumAll(g, h, biasX, biasY, Coord(qx, qy), InWorldNeighbours(g, w, h, qx, qy));
    }
  }

  lemma FieldSumZeros(w: nat, h: nat)
    ensures FieldSum(Zeros(w, h)) == 0.0
  {
    var f := Zeros(w, h);
    forall y | 0 <= y < h ensures Sum(f[y]) == 0.0 { SumOfZeros(f[y]); }
    var rows := seq(|f|, y requires 0 <= y < |f| => Sum(f[y]));
    SumOfZeros(rows);
  }

  lemma {:induction false} SumOfZeros(s: seq<real>)
    requires forall i :: 0 <= i < |s| ==> s[i] == 0.0
    ensures Sum(s) == 0.0
  {
    if s != [] { SumOfZeros(s[1..]); }
  }

  /** An in-world cell after the diffusion changes are applied: clamped to [0, 150]. */
  function Diffused(c: Cell, delta: real): Cell
  {
    if c.inWorld then c.(mantleEnergy := Clamp(c.mantleEnergy + delta, 0.0, MaxMantleEnergy)) else c
  }

  /** Apply EnergyChanges to in-world cells only, clamping to [0, 150]. */
  method ApplyDiffusion(g: Grid, w: int, h: int, changes: Field) returns (r: Grid)
    requires Shaped(g, w, h) && FieldShaped(changes, w, h)
    ensures Shaped(r, w, h)
    ensures forall y, x :: 0 <= y < h && 0 <= x < w ==> r[y][x] == Diffused(g[y][x], changes[y][x])
    ensures forall y, x :: 0 <= y < h && 0 <= x < w && r[y][x].inWorld ==> 0.0 <= r[y][x].mantleEnergy <= MaxMantleEnergy
    ensures Clean(g) ==> Clean(r) && MantleNonNegative(r)
  {
    r := g;
    var y := 0;
    while y < h
      invariant 0 <= y <= h && Shaped(r, w, h)
      invariant forall yy, xx :: 0 <= yy < h && 0 <= xx < w ==>
        r[yy][xx] == if yy < y then Diffused(g[yy][xx], changes[yy][xx]) else g[yy][xx]
    {
      var x := 0;
      while x < w
        invariant 0 <= x <= w && Shaped(r, w, h)
        invariant forall yy, xx :: 0 <= yy < h && 0 <= xx < w ==>
          r[yy][xx] == if yy < y || (yy == y && xx < x) then Diffused(g[yy][xx], changes[yy][xx]) else g[yy][xx]
      {
        if r[y][x].inWorld {
          var c := r[y][x];
          r := Put(r, x, y, c.(mantleEnergy := Clamp(c.mantleEnergy + changes[y][x], 0.0, MaxMantleEnergy)));
        }
        x := x + 1;
      }
      y := y + 1;
    }
  }
}
