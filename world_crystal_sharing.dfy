/**
 * UpdateCrystalLayer, step 2: every live Alpha receiver takes, in raster
 * order, the allowed flow from each richer live Alpha neighbour through the
 * EnergyChanges buffer; the giver logs each gift in its EnergyFlow.
 */
module CrystalSharing {
  import opened UnrealMath
  import opened Vectors
  import opened WorldMorphingTypes
  import opened WorldGrid
  import opened CrystalLayer
  import MantleDiffusion

  /** Empty every cell's EnergyFlow log. */
  method ClearEnergyFlows(g: Grid, w: int, h: int) returns (r: Grid)
    requires Shaped(g, w, h)
    ensures Shaped(r, w, h)
    ensures forall y, x :: 0 <= y < h && 0 <= x < w ==> r[y][x] == g[y][x].(energyFlow := [])
  {
    r := g;
    var y := 0;
    while y < h
      invariant 0 <= y <= h && Shaped(r, w, h)
      invariant forall yy, xx :: 0 <= yy < h && 0 <= xx < w ==>
        r[yy][xx] == if yy < y then g[yy][xx].(energyFlow := []) else g[yy][xx]
    {
      var x := 0;
      while x < w
        invariant 0 <= x <= w && Shaped(r, w, h)
        invariant forall yy, xx :: 0 <= yy < h && 0 <= xx < w ==>
          r[yy][xx] == if Before(yy, xx, y, x) then g[yy][xx].(energyFlow := []) else g[yy][xx]
      {
        r := Put(r, x, y, r[y][x].(energyFlow := []));
        x := x + 1;
      }
      y := y + 1;
    }
  }

  /**
   * The takers of c so far: the receivers before (x, y) in raster order, and
   * (x, y) itself once its loop has handled c among the givers in done.
   */
  function TakersSoFar(g: Grid, w: int, h: int, p: SimulationParams, c: Coord, y: int, x: int, done: seq<Coord>): (r: seq<Coord>)
    requires Shaped(g, w, h)
    ensures forall t :: t in r ==> IsValidCoord(w, h, t.x, t.y)
  {
    LinksBefore(g, w, h, p, Takes, c, y, x)
    + (if c in done && IsValidCoord(w, h, c.x, c.y) && IsValidCoord(w, h, x, y) && Shares(g[y][x], g[c.y][c.x], p)
       then [Coord(x, y)] else [])
  }

  /** What c has gained so far: all of it once its own loop is done, the givers in done while it runs. */
  function GainSoFar(g: Grid, w: int, h: int, p: SimulationParams, c: Coord, y: int, x: int, done: seq<Coord>): real
    requires Shaped(g, w, h) && IsValidCoord(w, h, c.x, c.y)
    requires forall n :: n in done ==> IsValidCoord(w, h, n.x, n.y)
  {
    if Before(c.y, c.x, y, x) then Gained(g, w, h, p, c.x, c.y)
    else if c == Coord(x, y) then
      assert forall n :: n in done ==> IsValidCoord(w, h, n.x, n.y) && 0 <= n.y < |g| && 0 <= n.x < |g[n.y]|;
      GainedAmong(g, p, c, done)
    else 0.0
  }

  /** The state of one cell during the sharing pass. */
  predicate ShareAt(g: Grid, r: Grid, changes: Field, w: int, h: int, p: SimulationParams,
                    cx: int, cy: int, y: int, x: int, done: seq<Coord>)
    requires Shaped(g, w, h) && Shaped(r, w, h) && FieldShaped(changes, w, h)
    requires forall n :: n in done ==> IsValidCoord(w, h, n.x, n.y)
  {
    IsValidCoord(w, h, cx, cy) ==>
      var takers := TakersSoFar(g, w, h, p, Coord(cx, cy), y, x, done);
      r[cy][cx] == g[cy][cx].(energyFlow := Records(g, p, Coord(cx, cy), takers))
      && changes[cy][cx] == GainSoFar(g, w, h, p, Coord(cx, cy), y, x, done) - Taken(g, p, Coord(cx, cy), takers)
  }

  /** The sharing state of the whole grid. */
  ghost predicate SharingState(g: Grid, r: Grid, changes: Field, w: int, h: int, p: SimulationParams,
                               y: int, x: int, done: seq<Coord>)
  {
    Shaped(g, w, h) && Shaped(r, w, h) && FieldShaped(changes, w, h)
    && (forall n :: n in done ==> IsValidCoord(w, h, n.x, n.y))
    && FieldSum(changes) == 0.0
    && forall cy, cx :: ShareAt(g, r, changes, w, h, p, cx, cy, y, x, done)
  }

  /**
   * The sharing step of UpdateCrystalLayer: every live Alpha receiver books,
   * from each richer live Alpha neighbour, the flow the limit allows, and the
   * giver books its negation and logs the receiver's coordinates and the flow.
   * The buffer sums to zero; each cell ends with all it gained minus all it
   * gave, and each giver's log lists its receivers in raster order.
   */
  method ShareEnergy(g: Grid, w: int, h: int, p: SimulationParams) returns (r: Grid, changes: Field)
    requires Shaped(g, w, h)
    ensures Shaped(r, w, h) && FieldShaped(changes, w, h)
    ensures FieldSum(changes) == 0.0
    ensures forall y, x :: 0 <= y < h && 0 <= x < w ==>
      r[y][x] == g[y][x].(energyFlow := Records(g, p, Coord(x, y), AllLinks(g, w, h, p, Takes, Coord(x, y))))
    ensures forall y, x :: 0 <= y < h && 0 <= x < w ==>
      changes[y][x] == Gained(g, w, h, p, x, y) - Taken(g, p, Coord(x, y), AllLinks(g, w, h, p, Takes, Coord(x, y)))
  {
    changes := Zeros(w, h);
    MantleDiffusion.FieldSumZeros(w, h);
    r := ClearEnergyFlows(g, w, h);
    SharingInit(g, r, changes, w, h, p);
    r, changes := ShareRows(g, r, changes, w, h, p);
    SharingDone(g, r, changes, w, h, p);
  }

  /** The receivers in raster order. */
  method ShareRows(g: Grid, r: Grid, changes: Field, w: int, h: int, p: SimulationParams)
    returns (r': Grid, changes': Field)
    requires SharingState(g, r, changes, w, h, p, 0, 0, [])
    ensures SharingState(g, r', changes', w, h, p, h, 0, [])
  {
    r', changes' := r, changes;
    var y := 0;
    while y < h
      invariant 0 <= y <= h
      invariant SharingState(g, r', changes', w, h, p, y, 0, [])
    {
      r', changes' := ShareRow(g, r', changes', w, h, p, y);
      y := y + 1;
    }
  }

  /** One row of receivers, left to right. */
  method ShareRow(g: Grid, r: Grid, changes: Field, w: int, h: int, p: SimulationParams, y: int)
    returns (r': Grid, changes': Field)
    requires 0 <= y < h
    requires SharingState(g, r, changes, w, h, p, y, 0, [])
    ensures SharingState(g, r', changes', w, h, p, y + 1, 0, [])
  {
    r', changes' := r, changes;
    var x := 0;
    while x < w
      invariant 0 <= x <= w
      invariant SharingState(g, r', changes', w, h, p, y, x, [])
    {
      r', changes' := ShareFrom(g, r', changes', w, h, p, x, y);
      x := x + 1;
    }
    SharingNextRow(g, r', changes', w, h, p, y);
  }

  lemma SharingInit(g: Grid, r: Grid, changes: Field, w: int, h: int, p: SimulationParams)
    requires Shaped(g, w, h) && Shaped(r, w, h) && FieldShaped(changes, w, h) && FieldSum(changes) == 0.0
    requires forall y, x :: 0 <= y < h && 0 <= x < w ==> r[y][x] == g[y][x].(energyFlow := []) && changes[y][x] == 0.0
    ensures SharingState(g, r, changes, w, h, p, 0, 0, [])
  {
    forall cy, cx ensures ShareAt(g, r, changes, w, h, p, cx, cy, 0, 0, []) {
      if IsValidCoord(w, h, cx, cy) {
        assert LinksBefore(g, w, h, p, Takes, Coord(cx, cy), 0, 0) == [];
      }
    }
  }

  lemma SharingDone(g: Grid, r: Grid, changes: Field, w: int, h: int, p: SimulationParams)
    requires SharingState(g, r, changes, w, h, p, h, 0, [])
    ensures forall y, x :: 0 <= y < h && 0 <= x < w ==>
      r[y][x] == g[y][x].(energyFlow := Records(g, p, Coord(x, y), AllLinks(g, w, h, p, Takes, Coord(x, y))))
    ensures forall y, x :: 0 <= y < h && 0 <= x < w ==>
      changes[y][x] == Gained(g, w, h, p, x, y) - Taken(g, p, Coord(x, y), AllLinks(g, w, h, p, Takes, Coord(x, y)))
  {
    forall cy, cx | 0 <= cy < h && 0 <= cx < w
      ensures r[cy][cx] == g[cy][cx].(energyFlow := Records(g, p, Coord(cx, cy), AllLinks(g, w, h, p, Takes, Coord(cx, cy))))
      ensures changes[cy][cx] == Gained(g, w, h, p, cx, cy) - Taken(g, p, Coord(cx, cy), AllLinks(g, w, h, p, Takes, Coord(cx, cy)))
    {
      FinalCell(g, r, changes, w, h, p, cx, cy);
    }
  }

  lemma FinalCell(g: Grid, r: Grid, changes: Field, w: int, h: int, p: SimulationParams, cx: int, cy: int)
    requires Shaped(g, w, h) && Shaped(r, w, h) && FieldShaped(changes, w, h) && IsValidCoord(w, h, cx, cy)
    requires ShareAt(g, r, changes, w, h, p, cx, cy, h, 0, [])
    ensures r[cy][cx] == g[cy][cx].(energyFlow := Records(g, p, Coord(cx, cy), AllLinks(g, w, h, p, Takes, Coord(cx, cy))))
    ensures changes[cy][cx] == Gained(g, w, h, p, cx, cy) - Taken(g, p, Coord(cx, cy), AllLinks(g, w, h, p, Takes, Coord(cx, cy)))
  {
    var c := Coord(cx, cy);
    assert TakersSoFar(g, w, h, p, c, h, 0, []) == AllLinks(g, w, h, p, Takes, c);
    assert GainSoFar(g, w, h, p, c, h, 0, []) == Gained(g, w, h, p, cx, cy);
  }

  lemma SharingNextRow(g: Grid, r: Grid, changes: Field, w: int, h: int, p: SimulationParams, y: int)
    requires 0 <= y && SharingState(g, r, changes, w, h, p, y, w, [])
    ensures SharingState(g, r, changes, w, h, p, y + 1, 0, [])
  {
    var y1 := y + 1;
    forall cy, cx ensures ShareAt(g, r, changes, w, h, p, cx, cy, y1, 0, []) {
      NextRowCell(g, r, changes, w, h, p, y, cx, cy);
    }
  }

  lemma NextRowCell(g: Grid, r: Grid, changes: Field, w: int, h: int, p: SimulationParams, y: int, cx: int, cy: int)
    requires 0 <= y && Shaped(g, w, h) && Shaped(r, w, h) && FieldShaped(changes, w, h)
    requires ShareAt(g, r, changes, w, h, p, cx, cy, y, w, [])
    ensures ShareAt(g, r, changes, w, h, p, cx, cy, y + 1, 0, [])
  {
    LinksNextRow(g, w, h, p, Takes, Coord(cx, cy), y);
  }

  /** One receiver's loop over its neighbours, skipped when it is not a live Alpha crystal. */
  method ShareFrom(g: Grid, r: Grid, changes: Field, w: int, h: int, p: SimulationParams, x: int, y: int)
    returns (r': Grid, changes': Field)
    requires IsValidCoord(w, h, x, y)
    requires SharingState(g, r, changes, w, h, p, y, x, [])
    ensures SharingState(g, r', changes', w, h, p, y, x + 1, [])
  {
    var ns := GetNeighbors(w, h, x, y);
    NeighborsValid(w, h, x, y);
    NeighborsDistinct(w, h, x, y);
    r', changes' := r, changes;
    assert ShareAt(g, r, changes, w, h, p, x, y, y, x, []);
    var cell := r[y][x];
    if cell.inWorld && cell.crystalState == Alpha {
      r', changes' := ShareNeighbors(g, r, changes, w, h, p, x, y, cell, ns);
      SharingFinish(g, r', changes', w, h, p, x, y, ns);
    } else {
      SharingSkip(g, r, changes, w, h, p, x, y);
    }
  }

  /** The neighbour loop of a live Alpha receiver. */
  method ShareNeighbors(g: Grid, r: Grid, changes: Field, w: int, h: int, p: SimulationParams,
                        x: int, y: int, cell: Cell, ns: seq<Coord>)
    returns (r': Grid, changes': Field)
    requires IsValidCoord(w, h, x, y) && ns == Neighbors(w, h, x, y)
    requires SharingState(g, r, changes, w, h, p, y, x, [])
    requires cell == r[y][x] && cell.inWorld && cell.crystalState == Alpha
    ensures SharingState(g, r', changes', w, h, p, y, x, ns)
  {
    r', changes' := r, changes;
    var i := 0;
    while i < |ns|
      invariant 0 <= i <= |ns|
      invariant SharingState(g, r', changes', w, h, p, y, x, ns[..i])
      invariant r'[y][x] == cell
    {
      r', changes' := ShareNext(g, r', changes', w, h, p, x, y, cell, ns, i);
      i := i + 1;
    }
    assert ns[..i] == ns;
  }

  /** Neighbour i of a live Alpha receiver: its pass extends the neighbours done by one. */
  method ShareNext(g: Grid, r: Grid, changes: Field, w: int, h: int, p: SimulationParams,
                   x: int, y: int, cell: Cell, ns: seq<Coord>, i: int)
    returns (r': Grid, changes': Field)
    requires IsValidCoord(w, h, x, y) && ns == Neighbors(w, h, x, y) && 0 <= i < |ns|
    requires SharingState(g, r, changes, w, h, p, y, x, ns[..i])
    requires cell == r[y][x] && cell.inWorld && cell.crystalState == Alpha
    ensures SharingState(g, r', changes', w, h, p, y, x, ns[..i + 1])
    ensures r'[y][x] == cell
  {
    NextNeighbor(w, h, x, y, i);
    r', changes' := ShareWith(g, r, changes, w, h, p, x, y, cell, ns[..i], ns[i]);
  }

  /** One pass of a receiver's neighbour loop: the neighbour gives when the sharing rule lets it. */
  method ShareWith(g: Grid, r: Grid, changes: Field, w: int, h: int, p: SimulationParams,
                   x: int, y: int, cell: Cell, done: seq<Coord>, n: Coord)
    returns (r': Grid, changes': Field)
    requires IsValidCoord(w, h, x, y) && IsValidCoord(w, h, n.x, n.y) && n !in done && n != Coord(x, y)
    requires SharingState(g, r, changes, w, h, p, y, x, done)
    requires cell == r[y][x] && cell.inWorld && cell.crystalState == Alpha
    ensures SharingState(g, r', changes', w, h, p, y, x, done + [n])
    ensures r'[y][x] == cell
  {
    r', changes' := r, changes;
    StateCell(g, r, changes, w, h, p, y, x, done, x, y);
    StateCell(g, r, changes, w, h, p, y, x, done, n.x, n.y);
    var nb := r[n.y][n.x];
    ShareCondition(cell, nb, g[y][x], g[n.y][n.x], p);
    ghost var gives := false;
    if nb.inWorld && nb.crystalState == Alpha {
      var diff := nb.storedEnergy - cell.storedEnergy;
      if diff > 0.0 {
        var flow := diff * p.energySharingRate;
        var limit := p.maxCrystalEnergy * p.energySharingLimit;
        if !(cell.storedEnergy + flow > limit) {
          gives := true;
          assert flow == ShareFlow(g[y][x], g[n.y][n.x], p);
          changes' := AddAt(changes', x, y, flow);
          changes' := AddAt(changes', n.x, n.y, -flow);
          r' := Put(r', n.x, n.y, nb.(energyFlow := nb.energyFlow + [Vec3(cell.x as real, cell.y as real, flow)]));
        }
      }
    }
    if gives {
      SharingGive(g, r, changes, r', changes', w, h, p, x, y, done, n);
    } else {
      SharingKeep(g, r', changes', w, h, p, x, y, done, n);
    }
  }

  /** Sharing only ever changes the energy-flow logs. */
  lemma StateCell(g: Grid, r: Grid, changes: Field, w: int, h: int, p: SimulationParams,
                  y: int, x: int, done: seq<Coord>, cx: int, cy: int)
    requires SharingState(g, r, changes, w, h, p, y, x, done) && IsValidCoord(w, h, cx, cy)
    ensures r[cy][cx] == g[cy][cx].(energyFlow := r[cy][cx].energyFlow)
  {
    assert ShareAt(g, r, changes, w, h, p, cx, cy, y, x, done);
  }

  /** The i-th neighbour of (x, y) is a valid cell other than (x, y), not among those before it. */
  lemma NextNeighbor(w: int, h: int, x: int, y: int, i: int)
    requires 0 <= i < |Neighbors(w, h, x, y)|
    ensures var ns := Neighbors(w, h, x, y);
      ns[..i + 1] == ns[..i] + [ns[i]] && ns[i] !in ns[..i]
      && IsValidCoord(w, h, ns[i].x, ns[i].y) && ns[i] != Coord(x, y)
  {
    var ns := Neighbors(w, h, x, y);
    NeighborsValid(w, h, x, y);
    NeighborsDistinct(w, h, x, y);
    assert ns[i] in ns;
    PrefixStep(ns, i);
  }

  lemma PrefixStep(ns: seq<Coord>, i: int)
    requires 0 <= i < |ns|
    requires forall a, b :: 0 <= a < b < |ns| ==> ns[a] != ns[b]
    ensures ns[..i + 1] == ns[..i] + [ns[i]]
    ensures ns[i] !in ns[..i]
  {
  }

  /** The source's test, written on the cells as it reads them, is the sharing rule on the grid. */
  lemma ShareCondition(cell: Cell, nb: Cell, gr: Cell, gn: Cell, p: SimulationParams)
    requires cell == gr.(energyFlow := cell.energyFlow) && nb == gn.(energyFlow := nb.energyFlow)
    ensures Shares(gr, gn, p) <==>
      cell.inWorld && cell.crystalState == Alpha && nb.inWorld && nb.crystalState == Alpha
      && nb.storedEnergy - cell.storedEnergy > 0.0
      && !(cell.storedEnergy + (nb.storedEnergy - cell.storedEnergy) * p.energySharingRate > p.maxCrystalEnergy * p.energySharingLimit)
    ensures FlowRecord(gr, gn, p) == Vec3(cell.x as real, cell.y as real, (nb.storedEnergy - cell.storedEnergy) * p.energySharingRate)
    ensures ShareFlow(gr, gn, p) == (nb.storedEnergy - cell.storedEnergy) * p.energySharingRate
  {
  }

  /** A receiver that is not a live Alpha crystal books nothing and is taken from by nobody at its turn. */
  lemma SharingSkip(g: Grid, r: Grid, changes: Field, w: int, h: int, p: SimulationParams, x: int, y: int)
    requires IsValidCoord(w, h, x, y)
    requires SharingState(g, r, changes, w, h, p, y, x, [])
    requires !LiveAlpha(r[y][x])
    ensures SharingState(g, r, changes, w, h, p, y, x + 1, [])
  {
    assert ShareAt(g, r, changes, w, h, p, x, y, y, x, []);
    var x1 := x + 1;
    forall cy, cx ensures ShareAt(g, r, changes, w, h, p, cx, cy, y, x1, []) {
      SkipCell(g, r, changes, w, h, p, x, y, cx, cy);
    }
  }

  lemma SkipCell(g: Grid, r: Grid, changes: Field, w: int, h: int, p: SimulationParams, x: int, y: int, cx: int, cy: int)
    requires IsValidCoord(w, h, x, y) && Shaped(g, w, h) && Shaped(r, w, h) && FieldShaped(changes, w, h)
    requires !LiveAlpha(g[y][x])
    requires ShareAt(g, r, changes, w, h, p, cx, cy, y, x, [])
    ensures ShareAt(g, r, changes, w, h, p, cx, cy, y, x + 1, [])
  {
    if IsValidCoord(w, h, cx, cy) {
      var c := Coord(cx, cy);
      LinksStep(g, w, h, p, Takes, c, y, x);
      assert !Linked(g, w, h, p, Takes, c, x, y);
      assert TakersSoFar(g, w, h, p, c, y, x, []) == TakersSoFar(g, w, h, p, c, y, x + 1, []);
      if cx == x && cy == y {
        NeighborsInGrid(g, w, h, x, y);
        GainedAmongNone(g, p, Coord(x, y), Neighbors(w, h, x, y));
      }
      assert GainSoFar(g, w, h, p, c, y, x, []) == GainSoFar(g, w, h, p, c, y, x + 1, []);
    }
  }

  /** After the last neighbour, the receiver's turn is over. */
  lemma SharingFinish(g: Grid, r: Grid, changes: Field, w: int, h: int, p: SimulationParams, x: int, y: int, ns: seq<Coord>)
    requires IsValidCoord(w, h, x, y) && ns == Neighbors(w, h, x, y)
    requires SharingState(g, r, changes, w, h, p, y, x, ns)
    ensures SharingState(g, r, changes, w, h, p, y, x + 1, [])
  {
    var x1 := x + 1;
    forall cy, cx ensures ShareAt(g, r, changes, w, h, p, cx, cy, y, x1, []) {
      FinishCell(g, r, changes, w, h, p, x, y, ns, cx, cy);
    }
  }

  lemma FinishCell(g: Grid, r: Grid, changes: Field, w: int, h: int, p: SimulationParams, x: int, y: int, ns: seq<Coord>, cx: int, cy: int)
    requires IsValidCoord(w, h, x, y) && ns == Neighbors(w, h, x, y)
    requires forall n :: n in ns ==> IsValidCoord(w, h, n.x, n.y)
    requires Shaped(g, w, h) && Shaped(r, w, h) && FieldShaped(changes, w, h)
    requires ShareAt(g, r, changes, w, h, p, cx, cy, y, x, ns)
    ensures ShareAt(g, r, changes, w, h, p, cx, cy, y, x + 1, [])
  {
    if IsValidCoord(w, h, cx, cy) {
      var c := Coord(cx, cy);
      LinksStep(g, w, h, p, Takes, c, y, x);
      assert TakersSoFar(g, w, h, p, c, y, x, ns) == TakersSoFar(g, w, h, p, c, y, x + 1, []);
      assert GainSoFar(g, w, h, p, c, y, x, ns) == GainSoFar(g, w, h, p, c, y, x + 1, []);
    }
  }

  lemma RecordsSnoc(g: Grid, p: SimulationParams, gc: Coord, takers: seq<Coord>, t: Coord)
    requires 0 <= gc.y < |g| && 0 <= gc.x < |g[gc.y]| && 0 <= t.y < |g| && 0 <= t.x < |g[t.y]|
    requires forall c :: c in takers ==> 0 <= c.y < |g| && 0 <= c.x < |g[c.y]|
    ensures Records(g, p, gc, takers + [t]) == Records(g, p, gc, takers) + [FlowRecord(g[t.y][t.x], g[gc.y][gc.x], p)]
    ensures Taken(g, p, gc, takers + [t]) == Taken(g, p, gc, takers) + ShareFlow(g[t.y][t.x], g[gc.y][gc.x], p)
  {
    assert (takers + [t])[..|takers|] == takers;
  }

  lemma GainedSnoc(g: Grid, p: SimulationParams, rc: Coord, done: seq<Coord>, n: Coord)
    requires 0 <= rc.y < |g| && 0 <= rc.x < |g[rc.y]| && 0 <= n.y < |g| && 0 <= n.x < |g[n.y]|
    requires forall c :: c in done ==> 0 <= c.y < |g| && 0 <= c.x < |g[c.y]|
    ensures GainedAmong(g, p, rc, done + [n]) == GainedAmong(g, p, rc, done) + Amount(g[rc.y][rc.x], g[n.y][n.x], p)
  {
    assert (done + [n])[..|done|] == done;
  }

  /** The giver n does not give to (x, y): nothing changes. */
  lemma SharingKeep(g: Grid, r: Grid, changes: Field, w: int, h: int, p: SimulationParams,
                    x: int, y: int, done: seq<Coord>, n: Coord)
    requires IsValidCoord(w, h, x, y) && IsValidCoord(w, h, n.x, n.y) && n !in done && n != Coord(x, y)
    requires SharingState(g, r, changes, w, h, p, y, x, done)
    requires !Shares(g[y][x], g[n.y][n.x], p)
    ensures SharingState(g, r, changes, w, h, p, y, x, done + [n])
  {
    var done' := done + [n];
    forall cy, cx ensures ShareAt(g, r, changes, w, h, p, cx, cy, y, x, done') {
      KeepCell(g, r, changes, w, h, p, x, y, done, n, cx, cy);
    }
  }

  lemma KeepCell(g: Grid, r: Grid, changes: Field, w: int, h: int, p: SimulationParams,
                 x: int, y: int, done: seq<Coord>, n: Coord, cx: int, cy: int)
    requires Shaped(g, w, h) && Shaped(r, w, h) && FieldShaped(changes, w, h)
    requires IsValidCoord(w, h, x, y) && IsValidCoord(w, h, n.x, n.y) && n !in done && n != Coord(x, y)
    requires forall c :: c in done ==> IsValidCoord(w, h, c.x, c.y)
    requires ShareAt(g, r, changes, w, h, p, cx, cy, y, x, done)
    requires !Shares(g[y][x], g[n.y][n.x], p)
    ensures ShareAt(g, r, changes, w, h, p, cx, cy, y, x, done + [n])
  {
    if IsValidCoord(w, h, cx, cy) {
      var c := Coord(cx, cy);
      assert TakersSoFar(g, w, h, p, c, y, x, done) == TakersSoFar(g, w, h, p, c, y, x, done + [n]);
      if c == Coord(x, y) {
        assert !Before(y, x, y, x);
        GainedSnoc(g, p, c, done, n);
      }
      assert GainSoFar(g, w, h, p, c, y, x, done) == GainSoFar(g, w, h, p, c, y, x, done + [n]);
    }
  }

  /** The giver n gives to (x, y): both buffer entries move and the giver logs the flow. */
  lemma SharingGive(g: Grid, r: Grid, changes: Field, r': Grid, changes': Field, w: int, h: int, p: SimulationParams,
                    x: int, y: int, done: seq<Coord>, n: Coord)
    requires IsValidCoord(w, h, x, y) && IsValidCoord(w, h, n.x, n.y) && n !in done && n != Coord(x, y)
    requires SharingState(g, r, changes, w, h, p, y, x, done)
    requires Shares(g[y][x], g[n.y][n.x], p)
    requires r' == Put(r, n.x, n.y, r[n.y][n.x].(energyFlow := r[n.y][n.x].energyFlow + [FlowRecord(g[y][x], g[n.y][n.x], p)]))
    requires changes' == AddAt(AddAt(changes, x, y, ShareFlow(g[y][x], g[n.y][n.x], p)), n.x, n.y, -ShareFlow(g[y][x], g[n.y][n.x], p))
    ensures SharingState(g, r', changes', w, h, p, y, x, done + [n])
  {
    var done' := done + [n];
    var flow := ShareFlow(g[y][x], g[n.y][n.x], p);
    FieldSumAddAt(changes, x, y, flow);
    FieldSumAddAt(AddAt(changes, x, y, flow), n.x, n.y, -flow);
    forall cy, cx ensures ShareAt(g, r', changes', w, h, p, cx, cy, y, x, done') {
      if IsValidCoord(w, h, cx, cy) {
        GiveCell(g, r, changes, w, h, p, x, y, done, n, cx, cy, r'[cy][cx], changes'[cy][cx]);
      }
    }
  }

  lemma GiveCell(g: Grid, r: Grid, changes: Field, w: int, h: int, p: SimulationParams,
                 x: int, y: int, done: seq<Coord>, n: Coord, cx: int, cy: int, cell': Cell, change': real)
    requires Shaped(g, w, h) && Shaped(r, w, h) && FieldShaped(changes, w, h)
    requires IsValidCoord(w, h, x, y) && IsValidCoord(w, h, n.x, n.y) && n !in done && n != Coord(x, y)
    requires forall c :: c in done ==> IsValidCoord(w, h, c.x, c.y)
    requires IsValidCoord(w, h, cx, cy)
    requires ShareAt(g, r, changes, w, h, p, cx, cy, y, x, done)
    requires Shares(g[y][x], g[n.y][n.x], p)
    requires cell' == if Coord(cx, cy) == n
      then r[cy][cx].(energyFlow := r[cy][cx].energyFlow + [FlowRecord(g[y][x], g[cy][cx], p)]) else r[cy][cx]
    requires change' == changes[cy][cx]
      + (if Coord(cx, cy) == Coord(x, y) then ShareFlow(g[y][x], g[n.y][n.x], p) else 0.0)
      - (if Coord(cx, cy) == n then ShareFlow(g[y][x], g[n.y][n.x], p) else 0.0)
    ensures
      var takers := TakersSoFar(g, w, h, p, Coord(cx, cy), y, x, done + [n]);
      cell' == g[cy][cx].(energyFlow := Records(g, p, Coord(cx, cy), takers))
      && change' == GainSoFar(g, w, h, p, Coord(cx, cy), y, x, done + [n]) - Taken(g, p, Coord(cx, cy), takers)
  {
    var c := Coord(cx, cy);
    if c == n {
      var before := LinksBefore(g, w, h, p, Takes, c, y, x);
      assert TakersSoFar(g, w, h, p, c, y, x, done) == before;
      assert TakersSoFar(g, w, h, p, c, y, x, done + [n]) == before + [Coord(x, y)];
      RecordsSnoc(g, p, c, before, Coord(x, y));
    } else {
      assert TakersSoFar(g, w, h, p, c, y, x, done) == TakersSoFar(g, w, h, p, c, y, x, done + [n]);
      if c == Coord(x, y) {
        assert !Before(y, x, y, x);
        GainedSnoc(g, p, c, done, n);
      }
    }
  }

  /** A cell that is not a live Alpha crystal neither gains nor gives anything. */
  lemma OnlyCrystalsShare(g: Grid, w: int, h: int, p: SimulationParams, x: int, y: int)
    requires Shaped(g, w, h) && IsValidCoord(w, h, x, y) && !LiveAlpha(g[y][x])
    ensures Gained(g, w, h, p, x, y) == 0.0
    ensures AllLinks(g, w, h, p, Takes, Coord(x, y)) == []
  {
    NeighborsInGrid(g, w, h, x, y);
    GainedAmongNone(g, p, Coord(x, y), Neighbors(w, h, x, y));
    forall ry, rx ensures !Linked(g, w, h, p, Takes, Coord(x, y), rx, ry) {
      if IsValidCoord(w, h, rx, ry) {
        ShareOnlyAlpha(g[ry][rx], g[y][x], p);
      }
    }
    LinksNone(g, w, h, p, Takes, Coord(x, y), h, 0);
  }

  // ---------------------------------------------------------------------
  // Applying the buffer.

  /** A live Alpha crystal adds its change and is clamped to [0, MaxCrystalEnergy]; every other cell is kept. */
  function AfterSharing(c: Cell, change: real, p: SimulationParams): (r: Cell)
    ensures r == c.(storedEnergy := r.storedEnergy)
    ensures !LiveAlpha(c) ==> r == c
    ensures LiveAlpha(c) && 0.0 <= p.maxCrystalEnergy ==> 0.0 <= r.storedEnergy <= p.maxCrystalEnergy
    ensures LiveAlpha(c) && 0.0 <= c.storedEnergy + change <= p.maxCrystalEnergy ==>
      r.storedEnergy == c.storedEnergy + change
  {
    if LiveAlpha(c) then c.(storedEnergy := Clamp(c.storedEnergy + change, 0.0, p.maxCrystalEnergy)) else c
  }

  /** The apply loop of step 2. */
  method ApplySharing(g: Grid, changes: Field, w: int, h: int, p: SimulationParams) returns (r: Grid)
    requires Shaped(g, w, h) && FieldShaped(changes, w, h)
    ensures Shaped(r, w, h)
    ensures forall y, x :: 0 <= y < h && 0 <= x < w ==> r[y][x] == AfterSharing(g[y][x], changes[y][x], p)
  {
    r := g;
    var y := 0;
    while y < h
      invariant 0 <= y <= h && Shaped(r, w, h)
      invariant forall yy, xx :: 0 <= yy < h && 0 <= xx < w ==>
        r[yy][xx] == if yy < y then AfterSharing(g[yy][xx], changes[yy][xx], p) else g[yy][xx]
    {
      var x := 0;
      while x < w
        invariant 0 <= x <= w && Shaped(r, w, h)
        invariant forall yy, xx :: 0 <= yy < h && 0 <= xx < w ==>
          r[yy][xx] == if Before(yy, xx, y, x) then AfterSharing(g[yy][xx], changes[yy][xx], p) else g[yy][xx]
      {
        var cell := r[y][x];
        if cell.inWorld && cell.crystalState == Alpha {
          var stored := cell.storedEnergy + changes[y][x];
          stored := Clamp(stored, 0.0, p.maxCrystalEnergy);
          r := Put(r, x, y, cell.(storedEnergy := stored));
        }
        x := x + 1;
      }
      y := y + 1;
    }
  }

  // ---------------------------------------------------------------------
  // Conservation of stored energy.

  function RowStored(row: seq<Cell>): seq<real>
  {
    seq(|row|, i requires 0 <= i < |row| => row[i].storedEnergy)
  }

  /** The stored energy of the whole grid. */
  function TotalStored(g: Grid): real
  {
    Sum(seq(|g|, y requires 0 <= y < |g| => Sum(RowStored(g[y]))))
  }

  lemma {:induction false} SumPointwise(a: seq<real>, b: seq<real>, c: seq<real>)
    requires |a| == |b| == |c|
    requires forall i :: 0 <= i < |c| ==> c[i] == a[i] + b[i]
    ensures Sum(c) == Sum(a) + Sum(b)
  {
    if c != [] {
      SumPointwise(a[1..], b[1..], c[1..]);
    }
  }

  /** Adding a buffer to the stored energies adds its total to the grid's. */
  lemma StoredShift(g: Grid, r: Grid, changes: Field, w: int, h: int)
    requires Shaped(g, w, h) && Shaped(r, w, h) && FieldShaped(changes, w, h)
    requires forall y, x :: 0 <= y < h && 0 <= x < w ==> r[y][x].storedEnergy == g[y][x].storedEnergy + changes[y][x]
    ensures TotalStored(r) == TotalStored(g) + FieldSum(changes)
  {
    var rowsG := seq(|g|, y requires 0 <= y < |g| => Sum(RowStored(g[y])));
    var rowsR := seq(|r|, y requires 0 <= y < |r| => Sum(RowStored(r[y])));
    var rowsC := seq(|changes|, y requires 0 <= y < |changes| => Sum(changes[y]));
    forall y | 0 <= y < h ensures rowsR[y] == rowsG[y] + rowsC[y] {
      SumPointwise(RowStored(g[y]), changes[y], RowStored(r[y]));
    }
    SumPointwise(rowsG, rowsC, rowsR);
  }

  /**
   * Step 2 as a whole moves stored energy between live Alpha crystals: when
   * no crystal's new value is clamped, the grid's total stored energy is the
   * same before and after.
   */
  lemma SharingConserves(g: Grid, shared: Grid, changes: Field, r: Grid, w: int, h: int, p: SimulationParams)
    requires Shaped(g, w, h) && Shaped(shared, w, h) && Shaped(r, w, h) && FieldShaped(changes, w, h)
    requires FieldSum(changes) == 0.0
    requires forall y, x :: 0 <= y < h && 0 <= x < w ==>
      shared[y][x] == g[y][x].(energyFlow := Records(g, p, Coord(x, y), AllLinks(g, w, h, p, Takes, Coord(x, y))))
    requires forall y, x :: 0 <= y < h && 0 <= x < w ==>
      changes[y][x] == Gained(g, w, h, p, x, y) - Taken(g, p, Coord(x, y), AllLinks(g, w, h, p, Takes, Coord(x, y)))
    requires forall y, x :: 0 <= y < h && 0 <= x < w ==> r[y][x] == AfterSharing(shared[y][x], changes[y][x], p)
    requires forall y, x :: 0 <= y < h && 0 <= x < w && LiveAlpha(g[y][x]) ==>
      0.0 <= g[y][x].storedEnergy + changes[y][x] <= p.maxCrystalEnergy
    ensures TotalStored(r) == TotalStored(g)
  {
    forall y, x | 0 <= y < h && 0 <= x < w ensures r[y][x].storedEnergy == g[y][x].storedEnergy + changes[y][x] {
      if !LiveAlpha(g[y][x]) {
        OnlyCrystalsShare(g, w, h, p, x, y);
      }
    }
    StoredShift(g, r, changes, w, h);
  }
}
