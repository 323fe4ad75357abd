/**
 * UpdateCrystalLayer, step 3: the state transitions. Every cell's rule reads
 * the grid as it stands after sharing and writes only into the NextStates and
 * NextStoredEnergy buffers, which are copied back in a final pass.
 */
module CrystalTransition {
  import opened UnrealMath
  import opened Wrappers
  import opened WorldMorphingTypes
  import opened WorldGrid
  import opened CrystalLayer

  /** The NextStates buffer, indexed [Y][X]. */
  type StateField = seq<seq<CrystalType>>

  predicate StatesShaped(s: StateField, w: int, h: int)
  {
    0 <= w && |s| == h && forall y :: 0 <= y < h ==> |s[y]| == w
  }

  /** NextStates[y][x] = v. */
  function SetState(s: StateField, x: int, y: int, v: CrystalType): (r: StateField)
    requires 0 <= y < |s| && 0 <= x < |s[y]|
    ensures |r| == |s| && (forall j :: 0 <= j < |s| ==> |r[j]| == |s[j]|)
    ensures r[y][x] == v
    ensures forall j, i :: 0 <= j < |s| && 0 <= i < |s[j]| && (j != y || i != x) ==> r[j][i] == s[j][i]
  {
    s[y := s[y][x := v]]
  }

  /** NextStoredEnergy[y][x] = v. */
  function SetAt(f: Field, x: int, y: int, v: real): (r: Field)
    requires 0 <= y < |f| && 0 <= x < |f[y]|
    ensures |r| == |f| && (forall j :: 0 <= j < |f| ==> |r[j]| == |f[j]|)
    ensures r[y][x] == v
    ensures forall j, i :: 0 <= j < |f| && 0 <= i < |f[j]| && (j != y || i != x) ==> r[j][i] == f[j][i]
  {
    f[y := f[y][x := v]]
  }

  // ---------------------------------------------------------------------
  // The neighbour lists, built by loops as the source builds them.

  /** AlphaNeighbors and BetaNeighbors: one pass over the neighbours, appending in order. */
  method CountNeighbours(g: Grid, p: SimulationParams, ns: seq<Coord>) returns (alpha: seq<Coord>, beta: seq<Coord>)
    requires forall c :: c in ns ==> 0 <= c.y < |g| && 0 <= c.x < |g[c.y]|
    ensures alpha == Among(g, ns, AlphaKind, p)
    ensures beta == Among(g, ns, BetaKind, p)
  {
    alpha, beta := [], [];
    var i := 0;
    while i < |ns|
      invariant 0 <= i <= |ns|
      invariant alpha == Among(g, ns[..i], AlphaKind, p)
      invariant beta == Among(g, ns[..i], BetaKind, p)
    {
      var n := ns[i];
      assert ns[..i + 1][..i] == ns[..i];
      if g[n.y][n.x].inWorld {
        if g[n.y][n.x].crystalState == Alpha { alpha := alpha + [n]; }
        if g[n.y][n.x].crystalState == Beta { beta := beta + [n]; }
      }
      i := i + 1;
    }
    assert ns[..i] == ns;
  }

  /** RichNeighbors: the Alpha neighbours storing at least ExpansionCost, in order. */
  method RichAmong(g: Grid, p: SimulationParams, alpha: seq<Coord>) returns (rich: seq<Coord>)
    requires forall c :: c in alpha ==> 0 <= c.y < |g| && 0 <= c.x < |g[c.y]|
    ensures rich == Among(g, alpha, RichKind, p)
  {
    rich := [];
    var i := 0;
    while i < |alpha|
      invariant 0 <= i <= |alpha|
      invariant rich == Among(g, alpha[..i], RichKind, p)
    {
      var n := alpha[i];
      assert alpha[..i + 1][..i] == alpha[..i];
      if g[n.y][n.x].storedEnergy >= p.expansionCost {
        rich := rich + [n];
      }
      i := i + 1;
    }
    assert alpha[..i] == alpha;
  }

  // ---------------------------------------------------------------------
  // The stored-energy buffer.

  /** n expansion charges: ExpansionCost subtracted n times. */
  function Charges(cost: real, n: int): (r: real)
    ensures cost >= 0.0 ==> r >= 0.0
    ensures n <= 0 ==> r == 0.0
    decreases n
  {
    if n <= 0 then 0.0 else Charges(cost, n - 1) + cost
  }

  predicate TableShaped(t: ParentTable, w: int, h: int)
  {
    |t| == h && forall y :: 0 <= y < h ==> |t[y]| == w
  }

  /** The cells before (y, x) in raster order that grew from the parent c. */
  function ChildrenBefore(g: Grid, w: int, h: int, p: SimulationParams, t: ParentTable, c: Coord, y: int, x: int): (r: seq<Coord>)
    requires Shaped(g, w, h)
    ensures forall t :: t in r ==> IsValidCoord(w, h, t.x, t.y)
  {
    LinksBefore(g, w, h, p, Picks(t), c, y, x)
  }

  /**
   * A buffer entry: the stored energy less one charge per child so far,
   * except that once the cell's own rule has written a value, that value
   * less only the children counted after it.
   */
  function Buffered(stored: real, own: Option<real>, ran: bool, children: int, childrenAtOwn: int, cost: real): real
  {
    if ran && own.Some? then own.value - Charges(cost, children - childrenAtOwn) else stored - Charges(cost, children)
  }

  /** NextStoredEnergy[cy][cx] once the scan has reached (y, x). */
  function StoredSoFar(g: Grid, w: int, h: int, p: SimulationParams, d: CrystalDraws, t: ParentTable, cx: int, cy: int, y: int, x: int): real
    requires Shaped(g, w, h) && IsValidCoord(w, h, cx, cy)
  {
    var c := Coord(cx, cy);
    Buffered(g[cy][cx].storedEnergy, OwnStored(g, w, h, p, d, cx, cy), Before(cy, cx, y, x),
             |ChildrenBefore(g, w, h, p, t, c, y, x)|, |ChildrenBefore(g, w, h, p, t, c, cy, cx)|, p.expansionCost)
  }

  /** NextStoredEnergy[cy][cx] after the whole scan. */
  function Pending(g: Grid, w: int, h: int, p: SimulationParams, d: CrystalDraws, cx: int, cy: int): real
    requires Shaped(g, w, h) && IsValidCoord(w, h, cx, cy)
  {
    StoredSoFar(g, w, h, p, d, Parents(g, w, h, p, d), cx, cy, h, 0)
  }

  /** The buffers at one cell while the scan is at (y, x). */
  predicate TransitAt(g: Grid, states: StateField, stored: Field, w: int, h: int, p: SimulationParams, d: CrystalDraws, t: ParentTable,
                      cx: int, cy: int, y: int, x: int)
    requires Shaped(g, w, h) && StatesShaped(states, w, h) && FieldShaped(stored, w, h)
  {
    IsValidCoord(w, h, cx, cy) ==>
      states[cy][cx] == (if Before(cy, cx, y, x) then NextState(g, w, h, p, d, cx, cy) else g[cy][cx].crystalState)
      && stored[cy][cx] == StoredSoFar(g, w, h, p, d, t, cx, cy, y, x)
  }

  ghost predicate TransitState(g: Grid, states: StateField, stored: Field, w: int, h: int, p: SimulationParams,
                               d: CrystalDraws, t: ParentTable, y: int, x: int)
  {
    Shaped(g, w, h) && StatesShaped(states, w, h) && FieldShaped(stored, w, h) && t == Parents(g, w, h, p, d)
    && forall cy, cx :: TransitAt(g, states, stored, w, h, p, d, t, cx, cy, y, x)
  }

  // ---------------------------------------------------------------------
  // The transition pass.

  /**
   * Step 3 of UpdateCrystalLayer: the buffers start as copies of the grid's
   * states and stored energies, and every existing cell's rule writes into
   * them in raster order. Each state ends as NextState of the grid, and each
   * stored entry as Pending, which counts every expansion charge a parent
   * receives, however many children it has.
   */
  method Transitions(g: Grid, w: int, h: int, p: SimulationParams, d: CrystalDraws)
    returns (states: StateField, stored: Field)
    requires Shaped(g, w, h)
    ensures StatesShaped(states, w, h) && FieldShaped(stored, w, h)
    ensures forall y, x :: 0 <= y < h && 0 <= x < w ==>
      states[y][x] == NextState(g, w, h, p, d, x, y) && stored[y][x] == Pending(g, w, h, p, d, x, y)
  {
    states := seq(h, y requires 0 <= y < h => seq(w, x requires 0 <= x < w => g[y][x].crystalState));
    stored := seq(h, y requires 0 <= y < h => seq(w, x requires 0 <= x < w => g[y][x].storedEnergy));
    ghost var t := Parents(g, w, h, p, d);
    TransitInit(g, states, stored, w, h, p, d, t);
    var y := 0;
    while y < h
      invariant 0 <= y <= h
      invariant TransitState(g, states, stored, w, h, p, d, t, y, 0)
    {
      states, stored := TransitRow(g, states, stored, w, h, p, d, t, y);
      y := y + 1;
    }
    TransitDone(g, states, stored, w, h, p, d, t);
  }

  /** One row of cells, left to right. */
  method TransitRow(g: Grid, states: StateField, stored: Field, w: int, h: int, p: SimulationParams, d: CrystalDraws,
                    ghost t: ParentTable, y: int)
    returns (states': StateField, stored': Field)
    requires 0 <= y < h
    requires TransitState(g, states, stored, w, h, p, d, t, y, 0)
    ensures TransitState(g, states', stored', w, h, p, d, t, y + 1, 0)
  {
    states', stored' := states, stored;
    var x := 0;
    while x < w
      invariant 0 <= x <= w
      invariant TransitState(g, states', stored', w, h, p, d, t, y, x)
    {
      states', stored' := TransitFrom(g, states', stored', w, h, p, d, t, x, y);
      x := x + 1;
    }
    TransitNextRow(g, states', stored', w, h, p, d, t, y);
  }

  /** One cell's rule: expansion for an Empty cell, hardening and isolation death for an Alpha cell. */
  method TransitFrom(g: Grid, states: StateField, stored: Field, w: int, h: int, p: SimulationParams, d: CrystalDraws,
                     ghost t: ParentTable, x: int, y: int)
    returns (states': StateField, stored': Field)
    requires IsValidCoord(w, h, x, y)
    requires TransitState(g, states, stored, w, h, p, d, t, y, x)
    ensures TransitState(g, states', stored', w, h, p, d, t, y, x + 1)
  {
    states', stored' := states, stored;
    var cell := g[y][x];
    if !cell.inWorld || (cell.crystalState != Empty && cell.crystalState != Alpha) {
      RuleQuiet(g, w, h, p, d, x, y);
      assert TransitAt(g, states, stored, w, h, p, d, t, x, y, y, x);
      TransitKeep(g, states, stored, states', stored', w, h, p, d, t, x, y);
      return;
    }
    var ns := GetNeighbors(w, h, x, y);
    NeighborsInGrid(g, w, h, x, y);
    var alpha, beta := CountNeighbours(g, p, ns);
    if cell.crystalState == Empty {
      var rich := RichAmong(g, p, alpha);
      states', stored' := ExpandStep(g, states, stored, w, h, p, d, t, x, y, rich);
    } else {
      assert Isolated(g, w, h, p, x, y) <==> |alpha| == 0 && |beta| < 2 && cell.storedEnergy < 5.0;
      states', stored' := AlphaStep(g, states, stored, w, h, p, d, t, x, y, |alpha|, |beta|);
    }
  }

  /** Rule 1: an Empty cell with a rich neighbour may grow, charging the parent it picks. */
  method ExpandStep(g: Grid, states: StateField, stored: Field, w: int, h: int, p: SimulationParams, d: CrystalDraws,
                    ghost t: ParentTable, x: int, y: int, rich: seq<Coord>)
    returns (states': StateField, stored': Field)
    requires IsValidCoord(w, h, x, y) && TransitState(g, states, stored, w, h, p, d, t, y, x)
    requires g[y][x].inWorld && g[y][x].crystalState == Empty
    requires rich == Rich(g, w, h, p, x, y)
    ensures TransitState(g, states', stored', w, h, p, d, t, y, x + 1)
  {
    states', stored' := states, stored;
    if |rich| > 0 && d.expand(x, y) {
      var parent := rich[d.pick(x, y) % |rich|];
      assert Parent(g, w, h, p, d, x, y) == Some(parent);
      states' := SetState(states', x, y, Alpha);
      stored' := SetAt(stored', x, y, 5.0);
      stored' := AddAt(stored', parent.x, parent.y, -p.expansionCost);
      TransitGrow(g, states, stored, states', stored', w, h, p, d, t, x, y, parent);
    } else {
      assert Parent(g, w, h, p, d, x, y).None?;
      assert TransitAt(g, states, stored, w, h, p, d, t, x, y, y, x);
      TransitKeep(g, states, stored, states', stored', w, h, p, d, t, x, y);
    }
  }

  /** Rules 2 and 3: an Alpha cell hardens at no stored energy, and dies when isolated (the later write wins). */
  method AlphaStep(g: Grid, states: StateField, stored: Field, w: int, h: int, p: SimulationParams, d: CrystalDraws,
                   ghost t: ParentTable, x: int, y: int, alphaCount: int, betaCount: int)
    returns (states': StateField, stored': Field)
    requires IsValidCoord(w, h, x, y) && TransitState(g, states, stored, w, h, p, d, t, y, x)
    requires g[y][x].inWorld && g[y][x].crystalState == Alpha
    requires Isolated(g, w, h, p, x, y) <==> alphaCount == 0 && betaCount < 2 && g[y][x].storedEnergy < 5.0
    ensures TransitState(g, states', stored', w, h, p, d, t, y, x + 1)
  {
    states', stored' := states, stored;
    var cell := g[y][x];
    if cell.storedEnergy <= 0.0 {
      states' := SetState(states', x, y, Beta);
      stored' := SetAt(stored', x, y, 0.0);
    }
    if alphaCount == 0 && betaCount < 2 && cell.storedEnergy < 5.0 {
      states' := SetState(states', x, y, Empty);
      stored' := SetAt(stored', x, y, 0.0);
    }
    RuleAlpha(g, w, h, p, d, x, y);
    assert TransitAt(g, states, stored, w, h, p, d, t, x, y, y, x);
    TransitKeep(g, states, stored, states', stored', w, h, p, d, t, x, y);
  }

  /** Cells outside the world, Beta and Human cells have no parent, keep their state and write nothing. */
  lemma RuleQuiet(g: Grid, w: int, h: int, p: SimulationParams, d: CrystalDraws, x: int, y: int)
    requires Shaped(g, w, h) && IsValidCoord(w, h, x, y)
    requires !g[y][x].inWorld || (g[y][x].crystalState != Empty && g[y][x].crystalState != Alpha)
    ensures Parent(g, w, h, p, d, x, y).None?
    ensures NextState(g, w, h, p, d, x, y) == g[y][x].crystalState
    ensures OwnStored(g, w, h, p, d, x, y).None?
  {
  }

  /** An Alpha cell has no parent; it ends Empty when isolated, else Beta at no stored energy, writing 0 in both cases. */
  lemma RuleAlpha(g: Grid, w: int, h: int, p: SimulationParams, d: CrystalDraws, x: int, y: int)
    requires Shaped(g, w, h) && IsValidCoord(w, h, x, y) && g[y][x].inWorld && g[y][x].crystalState == Alpha
    ensures Parent(g, w, h, p, d, x, y).None?
    ensures NextState(g, w, h, p, d, x, y)
         == if Isolated(g, w, h, p, x, y) then Empty else if g[y][x].storedEnergy <= 0.0 then Beta else Alpha
    ensures OwnStored(g, w, h, p, d, x, y)
         == if Isolated(g, w, h, p, x, y) || g[y][x].storedEnergy <= 0.0 then Some(0.0) else None
  {
  }

  // ---------------------------------------------------------------------
  // The scan invariant, cell by cell.

  lemma TransitInit(g: Grid, states: StateField, stored: Field, w: int, h: int, p: SimulationParams, d: CrystalDraws, t: ParentTable)
    requires Shaped(g, w, h) && StatesShaped(states, w, h) && FieldShaped(stored, w, h) && t == Parents(g, w, h, p, d)
    requires forall y, x :: 0 <= y < h && 0 <= x < w ==>
      states[y][x] == g[y][x].crystalState && stored[y][x] == g[y][x].storedEnergy
    ensures TransitState(g, states, stored, w, h, p, d, t, 0, 0)
  {
    forall cy, cx ensures TransitAt(g, states, stored, w, h, p, d, t, cx, cy, 0, 0) {
      if IsValidCoord(w, h, cx, cy) {
        assert ChildrenBefore(g, w, h, p, t, Coord(cx, cy), 0, 0) == [];
      }
    }
  }

  lemma TransitNextRow(g: Grid, states: StateField, stored: Field, w: int, h: int, p: SimulationParams, d: CrystalDraws,
                       t: ParentTable, y: int)
    requires 0 <= y && TransitState(g, states, stored, w, h, p, d, t, y, w)
    ensures TransitState(g, states, stored, w, h, p, d, t, y + 1, 0)
  {
    var y1 := y + 1;
    forall cy, cx ensures TransitAt(g, states, stored, w, h, p, d, t, cx, cy, y1, 0) {
      if IsValidCoord(w, h, cx, cy) {
        var c := Coord(cx, cy);
        assert TransitAt(g, states, stored, w, h, p, d, t, cx, cy, y, w);
        LinksNextRow(g, w, h, p, Picks(t), c, y);
        assert ChildrenBefore(g, w, h, p, t, c, y1, 0) == ChildrenBefore(g, w, h, p, t, c, y, w);
      }
    }
  }

  lemma TransitDone(g: Grid, states: StateField, stored: Field, w: int, h: int, p: SimulationParams, d: CrystalDraws, t: ParentTable)
    requires TransitState(g, states, stored, w, h, p, d, t, h, 0)
    ensures forall y, x :: 0 <= y < h && 0 <= x < w ==>
      states[y][x] == NextState(g, w, h, p, d, x, y) && stored[y][x] == Pending(g, w, h, p, d, x, y)
  {
    forall y, x | 0 <= y < h && 0 <= x < w
      ensures states[y][x] == NextState(g, w, h, p, d, x, y) && stored[y][x] == Pending(g, w, h, p, d, x, y)
    {
      assert TransitAt(g, states, stored, w, h, p, d, t, x, y, h, 0);
    }
  }

  /** A cell that grows from no parent: only its own entries change, to its next state and its own stored value if any. */
  lemma TransitKeep(g: Grid, states: StateField, stored: Field, states': StateField, stored': Field, w: int, h: int,
                    p: SimulationParams, d: CrystalDraws, t: ParentTable, x: int, y: int)
    requires IsValidCoord(w, h, x, y)
    requires TransitState(g, states, stored, w, h, p, d, t, y, x)
    requires Parent(g, w, h, p, d, x, y).None?
    requires StatesShaped(states', w, h) && FieldShaped(stored', w, h)
    requires states'[y][x] == NextState(g, w, h, p, d, x, y)
    requires stored'[y][x] == match OwnStored(g, w, h, p, d, x, y) case Some(v) => v case None => stored[y][x]
    requires forall j, i :: 0 <= j < h && 0 <= i < w && (j != y || i != x) ==>
      states'[j][i] == states[j][i] && stored'[j][i] == stored[j][i]
    ensures TransitState(g, states', stored', w, h, p, d, t, y, x + 1)
  {
    assert t[y][x].None?;
    var x1 := x + 1;
    forall cy, cx ensures TransitAt(g, states', stored', w, h, p, d, t, cx, cy, y, x1) {
      if IsValidCoord(w, h, cx, cy) {
        assert TransitAt(g, states, stored, w, h, p, d, t, cx, cy, y, x);
        KeepCell(g, w, h, p, d, t, x, y, cx, cy);
      }
    }
  }

  lemma KeepCell(g: Grid, w: int, h: int, p: SimulationParams, d: CrystalDraws, t: ParentTable, x: int, y: int, cx: int, cy: int)
    requires Shaped(g, w, h) && IsValidCoord(w, h, x, y) && IsValidCoord(w, h, cx, cy)
    requires TableShaped(t, w, h) && t[y][x].None?
    ensures Coord(cx, cy) != Coord(x, y) ==>
      StoredSoFar(g, w, h, p, d, t, cx, cy, y, x + 1) == StoredSoFar(g, w, h, p, d, t, cx, cy, y, x)
    ensures StoredSoFar(g, w, h, p, d, t, x, y, y, x + 1)
         == match OwnStored(g, w, h, p, d, x, y) case Some(v) => v case None => StoredSoFar(g, w, h, p, d, t, x, y, y, x)
  {
    var c := Coord(cx, cy);
    ChildrenStep(g, w, h, p, t, x, y, c);
    ChildrenStep(g, w, h, p, t, x, y, Coord(x, y));
    if c != Coord(x, y) {
      StoredSame(g, w, h, p, d, t, x, y, cx, cy);
    }
    var own := OwnStored(g, w, h, p, d, x, y);
    var n := |ChildrenBefore(g, w, h, p, t, Coord(x, y), y, x)|;
    assert |ChildrenBefore(g, w, h, p, t, Coord(x, y), y, x + 1)| == n;
    assert Before(y, x, y, x + 1) && !Before(y, x, y, x);
    assert StoredSoFar(g, w, h, p, d, t, x, y, y, x + 1) == Buffered(g[y][x].storedEnergy, own, true, n, n, p.expansionCost);
    assert StoredSoFar(g, w, h, p, d, t, x, y, y, x) == Buffered(g[y][x].storedEnergy, own, false, n, n, p.expansionCost);
    BufferedAtVisit(g[y][x].storedEnergy, own, n, p.expansionCost);
  }

  /** At the cell's own visit, the buffer takes the value its rule writes, if any, and otherwise keeps what it held. */
  lemma BufferedAtVisit(stored: real, own: Option<real>, n: int, cost: real)
    ensures Buffered(stored, own, true, n, n, cost)
         == match own case Some(v) => v case None => Buffered(stored, own, false, n, n, cost)
  {
  }

  lemma StoredSame(g: Grid, w: int, h: int, p: SimulationParams, d: CrystalDraws, t: ParentTable, x: int, y: int, cx: int, cy: int)
    requires Shaped(g, w, h) && IsValidCoord(w, h, x, y) && IsValidCoord(w, h, cx, cy) && Coord(cx, cy) != Coord(x, y)
    requires ChildrenBefore(g, w, h, p, t, Coord(cx, cy), y, x + 1) == ChildrenBefore(g, w, h, p, t, Coord(cx, cy), y, x)
    ensures StoredSoFar(g, w, h, p, d, t, cx, cy, y, x + 1) == StoredSoFar(g, w, h, p, d, t, cx, cy, y, x)
  {
    assert Before(cy, cx, y, x + 1) <==> Before(cy, cx, y, x);
  }

  /** One step of the scan adds the cell at (x, y) to c's children exactly when the table names c as its parent. */
  lemma ChildrenStep(g: Grid, w: int, h: int, p: SimulationParams, t: ParentTable, x: int, y: int, c: Coord)
    requires Shaped(g, w, h) && IsValidCoord(w, h, x, y) && TableShaped(t, w, h)
    ensures ChildrenBefore(g, w, h, p, t, c, y, x + 1)
         == ChildrenBefore(g, w, h, p, t, c, y, x)
            + (if t[y][x] == Some(c) && IsValidCoord(w, h, c.x, c.y) then [Coord(x, y)] else [])
  {
    LinksStep(g, w, h, p, Picks(t), c, y, x);
  }

  /** An Empty cell that grows from parent: its own entries become Alpha and 5, and the parent's entry pays ExpansionCost. */
  lemma TransitGrow(g: Grid, states: StateField, stored: Field, states': StateField, stored': Field, w: int, h: int,
                    p: SimulationParams, d: CrystalDraws, t: ParentTable, x: int, y: int, parent: Coord)
    requires IsValidCoord(w, h, x, y)
    requires TransitState(g, states, stored, w, h, p, d, t, y, x)
    requires Parent(g, w, h, p, d, x, y) == Some(parent)
    requires StatesShaped(states', w, h) && FieldShaped(stored', w, h)
    requires states'[y][x] == Alpha && stored'[y][x] == 5.0
    requires stored'[parent.y][parent.x] == stored[parent.y][parent.x] - p.expansionCost
    requires forall j, i :: 0 <= j < h && 0 <= i < w && (j != y || i != x) ==> states'[j][i] == states[j][i]
    requires forall j, i :: 0 <= j < h && 0 <= i < w && (j != y || i != x) && (j != parent.y || i != parent.x) ==>
      stored'[j][i] == stored[j][i]
    ensures TransitState(g, states', stored', w, h, p, d, t, y, x + 1)
  {
    assert t[y][x] == Some(parent) && NextState(g, w, h, p, d, x, y) == Alpha;
    assert OwnStored(g, w, h, p, d, x, y) == Some(5.0);
    var x1 := x + 1;
    forall cy, cx ensures TransitAt(g, states', stored', w, h, p, d, t, cx, cy, y, x1) {
      if IsValidCoord(w, h, cx, cy) {
        assert TransitAt(g, states, stored, w, h, p, d, t, cx, cy, y, x);
        GrowValues(g, w, h, p, d, t, x, y, parent, cx, cy, states[cy][cx], stored[cy][cx], states'[cy][cx], stored'[cy][cx]);
      }
    }
  }

  /** TransitGrow at one cell (cx, cy), on the entries it held before and holds after. */
  lemma GrowValues(g: Grid, w: int, h: int, p: SimulationParams, d: CrystalDraws, t: ParentTable,
                   x: int, y: int, parent: Coord, cx: int, cy: int, s0: CrystalType, v0: real, s1: CrystalType, v1: real)
    requires Shaped(g, w, h) && IsValidCoord(w, h, x, y) && IsValidCoord(w, h, cx, cy)
    requires TableShaped(t, w, h) && t[y][x] == Some(parent) && parent != Coord(x, y)
    requires NextState(g, w, h, p, d, x, y) == Alpha && OwnStored(g, w, h, p, d, x, y) == Some(5.0)
    requires s0 == (if Before(cy, cx, y, x) then NextState(g, w, h, p, d, cx, cy) else g[cy][cx].crystalState)
    requires v0 == StoredSoFar(g, w, h, p, d, t, cx, cy, y, x)
    requires s1 == if Coord(cx, cy) == Coord(x, y) then Alpha else s0
    requires v1 == if Coord(cx, cy) == Coord(x, y) then 5.0 else if Coord(cx, cy) == parent then v0 - p.expansionCost else v0
    ensures s1 == (if Before(cy, cx, y, x + 1) then NextState(g, w, h, p, d, cx, cy) else g[cy][cx].crystalState)
    ensures v1 == StoredSoFar(g, w, h, p, d, t, cx, cy, y, x + 1)
  {
    GrowCell(g, w, h, p, d, t, x, y, parent, cx, cy);
    assert Before(cy, cx, y, x + 1) <==> Before(cy, cx, y, x) || Coord(cx, cy) == Coord(x, y);
  }

  lemma GrowCell(g: Grid, w: int, h: int, p: SimulationParams, d: CrystalDraws, t: ParentTable,
                 x: int, y: int, parent: Coord, cx: int, cy: int)
    requires Shaped(g, w, h) && IsValidCoord(w, h, x, y) && IsValidCoord(w, h, cx, cy)
    requires TableShaped(t, w, h) && t[y][x] == Some(parent) && parent != Coord(x, y)
    requires OwnStored(g, w, h, p, d, x, y) == Some(5.0)
    ensures StoredSoFar(g, w, h, p, d, t, x, y, y, x + 1) == 5.0
    ensures Coord(cx, cy) != Coord(x, y) && Coord(cx, cy) != parent ==>
      StoredSoFar(g, w, h, p, d, t, cx, cy, y, x + 1) == StoredSoFar(g, w, h, p, d, t, cx, cy, y, x)
    ensures Coord(cx, cy) == parent ==>
      StoredSoFar(g, w, h, p, d, t, cx, cy, y, x + 1) == StoredSoFar(g, w, h, p, d, t, cx, cy, y, x) - p.expansionCost
  {
    var c := Coord(cx, cy);
    assert StoredSoFar(g, w, h, p, d, t, x, y, y, x + 1) == 5.0 by {
      ChildrenStep(g, w, h, p, t, x, y, Coord(x, y));
      var self := |ChildrenBefore(g, w, h, p, t, Coord(x, y), y, x)|;
      assert |ChildrenBefore(g, w, h, p, t, Coord(x, y), y, x + 1)| == self;
      assert Before(y, x, y, x + 1);
      assert StoredSoFar(g, w, h, p, d, t, x, y, y, x + 1)
          == Buffered(g[y][x].storedEnergy, Some(5.0), true, self, self, p.expansionCost);
    }
    if c != Coord(x, y) && c != parent {
      ChildrenStep(g, w, h, p, t, x, y, c);
      StoredSame(g, w, h, p, d, t, x, y, cx, cy);
    } else if c == parent {
      ParentCharged(g, w, h, p, d, t, x, y, parent);
    }
  }

  /** The parent's entry pays ExpansionCost when a cell grows from it. */
  lemma ParentCharged(g: Grid, w: int, h: int, p: SimulationParams, d: CrystalDraws, t: ParentTable,
                      x: int, y: int, parent: Coord)
    requires Shaped(g, w, h) && IsValidCoord(w, h, x, y) && IsValidCoord(w, h, parent.x, parent.y)
    requires TableShaped(t, w, h) && t[y][x] == Some(parent) && parent != Coord(x, y)
    ensures StoredSoFar(g, w, h, p, d, t, parent.x, parent.y, y, x + 1)
         == StoredSoFar(g, w, h, p, d, t, parent.x, parent.y, y, x) - p.expansionCost
  {
    var cx, cy := parent.x, parent.y;
    ChildrenStep(g, w, h, p, t, x, y, parent);
    var before := Before(cy, cx, y, x);
    assert Before(cy, cx, y, x + 1) == before;
    var n := |ChildrenBefore(g, w, h, p, t, parent, y, x)|;
    var m := |ChildrenBefore(g, w, h, p, t, parent, cy, cx)|;
    assert |ChildrenBefore(g, w, h, p, t, parent, y, x + 1)| == n + 1;
    if before {
      LinksGrow(g, w, h, p, Picks(t), parent, cy, cx, y, x);
    }
    var own := OwnStored(g, w, h, p, d, cx, cy);
    BufferedCharge(g[cy][cx].storedEnergy, own, before, n, m, p.expansionCost);
  }

  /** One more child costs the buffer entry one more ExpansionCost. */
  lemma BufferedCharge(stored: real, own: Option<real>, ran: bool, n: int, m: int, cost: real)
    requires 0 <= n && (ran && own.Some? ==> m <= n)
    ensures Buffered(stored, own, ran, n + 1, m, cost) == Buffered(stored, own, ran, n, m, cost) - cost
  {
  }
}
