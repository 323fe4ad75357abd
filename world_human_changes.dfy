/**
 * UpdateHumanLayer, step 2: every settlement is evaluated against the grid
 * as it stands, and what it does is recorded as a list of changes, applied
 * only after all settlements have been evaluated.
 */
module HumanChanges {
  import opened Wrappers
  import opened WorldMorphingTypes
  import opened WorldGrid
  import opened HumanCensus

  /** FHumanChange::EType. */
  datatype ChangeType = ProsperityChange | StateChange | MigrateChange

  /**
   * FHumanChange. A state change with value 0 empties the cell, one with
   * value 1 settles it; a migration moves the settlement at (x, y) to
   * (toX, toY) with prosperity value.
   */
  datatype HumanChange = HumanChange(x: int, y: int, kind: ChangeType, value: real, toX: int, toY: int)

  /**
   * The random draws of the human layer: the RandRange(0, Width - 1) and
   * RandRange(0, Height - 1) of each bootstrap attempt, and, per settlement,
   * the RandRange index of its mining target and of its expansion target.
   */
  datatype HumanDraws = HumanDraws(spawnX: int -> int, spawnY: int -> int, mine: (int, int) -> int, settle: (int, int) -> int)

  /** A state change aimed at c: value 0 empties it, value 1 settles it. */
  function StateAt(c: Coord, value: real): HumanChange
  {
    HumanChange(c.x, c.y, StateChange, value, 0, 0)
  }

  /** Step A: a temperature outside [HumanSurvivalMinTemp, HumanSurvivalMaxTemp] kills the settlement. */
  predicate Survivable(c: Cell, p: SimulationParams)
  {
    !(c.temperature < p.humanSurvivalMinTemp || c.temperature > p.humanSurvivalMaxTemp)
  }

  /** What a settlement sees around it: its Human neighbour count, its Beta neighbours, its expansion targets and its best haven. */
  datatype Surroundings = Surroundings(humans: nat, beta: seq<Coord>, targets: seq<Coord>, best: Best)

  /** The neighbour lists of the settlement at (x, y). */
  function Survey(g: Grid, w: int, h: int, p: SimulationParams, x: int, y: int): (s: Surroundings)
    requires Shaped(g, w, h) && IsValidCoord(w, h, x, y)
  {
    NeighborsInGrid(g, w, h, x, y);
    NeighborsValid(w, h, x, y);
    var ns := Neighbors(w, h, x, y);
    Surroundings(|Select(g, ns, HumanCell)|, Select(g, ns, BetaCell), Select(g, ns, Target), BestHaven(g, w, h, p, ns))
  }

  /**
   * ProsperityChange: growth in the comfortable band and decay outside it,
   * 0.1 per Human neighbour, and the mining reward when there is a Beta
   * neighbour to mine.
   */
  function ProsperityDelta(c: Cell, p: SimulationParams, s: Surroundings): real
  {
    (if Comfortable(c, p) then p.humanProsperityGrowth else -p.humanProsperityDecay)
    + s.humans as real * 0.1
    + (if |s.beta| > 0 then p.humanMiningReward else 0.0)
  }

  /**
   * What a surviving settlement at (x, y) records, in the source's order:
   * the mining of one Beta neighbour, its own prosperity update, the
   * settling of one expansion target, and a migration to the best haven.
   */
  function Decide(c: Cell, x: int, y: int, p: SimulationParams, dr: HumanDraws, s: Surroundings): seq<HumanChange>
  {
    var next := c.prosperity + ProsperityDelta(c, p, s);
    (if |s.beta| > 0 then [StateAt(s.beta[dr.mine(x, y) % |s.beta|], 0.0)] else [])
    + [HumanChange(x, y, ProsperityChange, next, 0, 0)]
    + (if next > p.humanExpansionThreshold && |s.targets| > 0
       then [StateAt(s.targets[dr.settle(x, y) % |s.targets|], 1.0)] else [])
    + (if next < p.humanMigrationThreshold && s.best.cell.Some? && s.best.score > 0.0
       then [HumanChange(x, y, MigrateChange, c.prosperity * 0.8, s.best.cell.value.x, s.best.cell.value.y)] else [])
  }

  /** The changes one cell records: nothing unless it is a settlement, its removal when the temperature is not survivable. */
  function CellChanges(g: Grid, w: int, h: int, p: SimulationParams, dr: HumanDraws, x: int, y: int): seq<HumanChange>
    requires Shaped(g, w, h) && IsValidCoord(w, h, x, y)
  {
    var c := g[y][x];
    if c.crystalState != Human then []
    else if !Survivable(c, p) then [StateAt(Coord(x, y), 0.0)]
    else Decide(c, x, y, p, dr, Survey(g, w, h, p, x, y))
  }

  /** Step 2 for one cell, with the source's neighbour loops. */
  method EvaluateSettlement(g: Grid, w: int, h: int, p: SimulationParams, dr: HumanDraws, x: int, y: int)
    returns (cs: seq<HumanChange>)
    requires Shaped(g, w, h) && IsValidCoord(w, h, x, y)
    ensures cs == CellChanges(g, w, h, p, dr, x, y)
  {
    var cell := g[y][x];
    if cell.crystalState != Human {
      return [];
    }
    if cell.temperature < p.humanSurvivalMinTemp || cell.temperature > p.humanSurvivalMaxTemp {
      return [StateAt(Coord(x, y), 0.0)];
    }
    var ns := GetNeighbors(w, h, x, y);
    NeighborsInGrid(g, w, h, x, y);
    NeighborsValid(w, h, x, y);
    var humans := CountOf(g, ns, HumanCell);
    var beta := Collect(g, ns, BetaCell);
    var targets := Collect(g, ns, Target);
    var best, bestScore := FindBestHaven(g, w, h, p, ns);
    ghost var s := Surroundings(humans, beta, targets, Best(best, bestScore));
    assert s == Survey(g, w, h, p, x, y);
    cs := Decided(cell, x, y, p, dr, humans, beta, targets, best, bestScore);
  }

  /**
   * Steps B to E on what the neighbour loops found. The source builds
   * ValidTargets only past the expansion threshold and looks for a haven
   * only below the migration threshold; the lists read the same grid either
   * way.
   */
  method Decided(cell: Cell, x: int, y: int, p: SimulationParams, dr: HumanDraws,
                 humans: nat, beta: seq<Coord>, targets: seq<Coord>, best: Option<Coord>, bestScore: real)
    returns (cs: seq<HumanChange>)
    ensures cs == Decide(cell, x, y, p, dr, Surroundings(humans, beta, targets, Best(best, bestScore)))
  {
    var change := 0.0;
    if cell.temperature >= p.humanMinTemp && cell.temperature <= p.humanMaxTemp {
      change := change + p.humanProsperityGrowth;
    } else {
      change := change - p.humanProsperityDecay;
    }
    change := change + humans as real * 0.1;
    cs := [];
    if |beta| > 0 {
      var target := beta[dr.mine(x, y) % |beta|];
      cs := cs + [StateAt(target, 0.0)];
      change := change + p.humanMiningReward;
    }
    var update := HumanChange(x, y, ProsperityChange, cell.prosperity + change, 0, 0);
    cs := cs + [update];
    if cell.prosperity + change > p.humanExpansionThreshold {
      if |targets| > 0 {
        var target := targets[dr.settle(x, y) % |targets|];
        cs := cs + [StateAt(target, 1.0)];
        // The update was copied into the list above: lowering its value
        // here no longer reaches the list.
        update := update.(value := update.value * 0.6);
      }
    }
    if cell.prosperity + change < p.humanMigrationThreshold {
      if best.Some? && bestScore > 0.0 {
        cs := cs + [HumanChange(x, y, MigrateChange, cell.prosperity * 0.8, best.value.x, best.value.y)];
      }
    }
  }

  // ---------------------------------------------------------------------
  // The list, in raster order.

  /** What each cell records, indexed [Y][X]. */
  type ChangeTable = seq<seq<seq<HumanChange>>>

  /** t holds, at every cell, what that cell records. */
  ghost predicate Tabulates(g: Grid, w: int, h: int, p: SimulationParams, dr: HumanDraws, t: ChangeTable)
    requires Shaped(g, w, h)
  {
    |t| == h && (forall y :: 0 <= y < h ==> |t[y]| == w)
    && forall y, x {:trigger CellChanges(g, w, h, p, dr, x, y)} :: 0 <= y < h && 0 <= x < w ==>
         t[y][x] == CellChanges(g, w, h, p, dr, x, y)
  }

  function Evaluations(g: Grid, w: int, h: int, p: SimulationParams, dr: HumanDraws): (t: ChangeTable)
    requires Shaped(g, w, h)
    ensures |t| == h && forall y :: 0 <= y < h ==> |t[y]| == w
    ensures Tabulates(g, w, h, p, dr, t)
  {
    seq(h, y requires 0 <= y < h => seq(w, x requires 0 <= x < w => CellChanges(g, w, h, p, dr, x, y)))
  }

  /** The entries of row y before column x, in order. */
  function RowChanges(t: ChangeTable, y: int, x: int): seq<HumanChange>
    requires 0 <= y < |t| && x <= |t[y]|
    decreases x
  {
    if x <= 0 then [] else RowChanges(t, y, x - 1) + t[y][x - 1]
  }

  /** The entries of the rows above y, in order. */
  function ChangesAbove(t: ChangeTable, w: int, y: int): seq<HumanChange>
    requires y <= |t| && forall j :: 0 <= j < |t| ==> |t[j]| == w
    decreases y
  {
    if y <= 0 then [] else ChangesAbove(t, w, y - 1) + RowChanges(t, y - 1, w)
  }

  /** The whole change list of step 2. */
  function AllChanges(g: Grid, w: int, h: int, p: SimulationParams, dr: HumanDraws): seq<HumanChange>
    requires Shaped(g, w, h)
  {
    ChangesAbove(Evaluations(g, w, h, p, dr), w, h)
  }

  /** Step 2: the double loop over the grid, each settlement appending its changes. */
  method CollectChanges(g: Grid, w: int, h: int, p: SimulationParams, dr: HumanDraws) returns (changes: seq<HumanChange>)
    requires Shaped(g, w, h)
    ensures changes == AllChanges(g, w, h, p, dr)
  {
    ghost var t := Evaluations(g, w, h, p, dr);
    changes := [];
    var y := 0;
    while y < h
      invariant 0 <= y <= h
      invariant changes == ChangesAbove(t, w, y)
    {
      changes := CollectRow(g, w, h, p, dr, t, y, changes);
      y := y + 1;
    }
  }

  /** One row of step 2. */
  method CollectRow(g: Grid, w: int, h: int, p: SimulationParams, dr: HumanDraws, ghost t: ChangeTable, y: int,
                    changes: seq<HumanChange>)
    returns (changes': seq<HumanChange>)
    requires Shaped(g, w, h) && 0 <= y < h && Tabulates(g, w, h, p, dr, t)
    ensures changes' == changes + RowChanges(t, y, w)
  {
    changes' := changes;
    var x := 0;
    while x < w
      invariant 0 <= x <= w
      invariant changes' == changes + RowChanges(t, y, x)
    {
      changes' := AppendCell(g, w, h, p, dr, t, x, y, changes');
      x := x + 1;
    }
  }

  /** One cell of step 2: the settlement's changes go to the end of the list. */
  method AppendCell(g: Grid, w: int, h: int, p: SimulationParams, dr: HumanDraws, ghost t: ChangeTable, x: int, y: int,
                    changes: seq<HumanChange>)
    returns (changes': seq<HumanChange>)
    requires Shaped(g, w, h) && IsValidCoord(w, h, x, y) && Tabulates(g, w, h, p, dr, t)
    ensures changes' == changes + t[y][x]
  {
    var cs := EvaluateSettlement(g, w, h, p, dr, x, y);
    changes' := changes + cs;
  }

  // ---------------------------------------------------------------------
  // What the list holds.

  /**
   * Every change stays in the grid and never aims at an Alpha cell; a
   * prosperity change aims at a settlement, a settling change at an existing
   * cell, and a migration starts at a settlement and ends at an existing
   * Empty cell.
   */
  predicate Respects(g: Grid, w: int, h: int, ch: HumanChange)
    requires Shaped(g, w, h)
  {
    IsValidCoord(w, h, ch.x, ch.y) && g[ch.y][ch.x].crystalState != Alpha
    && (ch.kind == ProsperityChange ==> g[ch.y][ch.x].crystalState == Human)
    && (ch.kind == StateChange && ch.value == 1.0 ==> g[ch.y][ch.x].inWorld)
    && (ch.kind == MigrateChange ==>
          g[ch.y][ch.x].crystalState == Human && IsValidCoord(w, h, ch.toX, ch.toY)
          && g[ch.toY][ch.toX].inWorld && g[ch.toY][ch.toX].crystalState == Empty)
  }

  /** A migration carries a prosperity in [0, 100]. */
  predicate Tame(ch: HumanChange)
  {
    ch.kind == MigrateChange ==> 0.0 <= ch.value <= 100.0
  }

  /** Every prosperity of the grid lies in [0, 100]. */
  predicate ProsperityBounded(g: Grid)
  {
    forall y, x :: 0 <= y < |g| && 0 <= x < |g[y]| ==> 0.0 <= g[y][x].prosperity <= 100.0
  }

  /** Every change of the list respects the grid, and is tame when tame is asked for. */
  predicate Sound(g: Grid, w: int, h: int, cs: seq<HumanChange>, tame: bool)
    requires Shaped(g, w, h)
  {
    forall ch :: ch in cs ==> Respects(g, w, h, ch) && (tame ==> Tame(ch))
  }

  /** What the neighbour lists hold, as Survey promises it. */
  predicate Fits(g: Grid, w: int, h: int, s: Surroundings)
    requires Shaped(g, w, h)
  {
    (forall c :: c in s.beta ==> IsValidCoord(w, h, c.x, c.y) && g[c.y][c.x].crystalState == Beta)
    && (forall c :: c in s.targets ==> IsValidCoord(w, h, c.x, c.y) && IsHumanKind(g[c.y][c.x], Target))
    && (s.best.cell.Some? ==> IsValidCoord(w, h, s.best.cell.value.x, s.best.cell.value.y)
                              && IsHumanKind(g[s.best.cell.value.y][s.best.cell.value.x], Haven))
  }

  lemma SurveyFits(g: Grid, w: int, h: int, p: SimulationParams, x: int, y: int)
    requires Shaped(g, w, h) && IsValidCoord(w, h, x, y)
    ensures Fits(g, w, h, Survey(g, w, h, p, x, y))
  {
    NeighborsInGrid(g, w, h, x, y);
    NeighborsValid(w, h, x, y);
    BestSome(g, w, h, p, Neighbors(w, h, x, y));
  }

  lemma DecideSound(g: Grid, w: int, h: int, p: SimulationParams, dr: HumanDraws, x: int, y: int, s: Surroundings)
    requires Shaped(g, w, h) && IsValidCoord(w, h, x, y) && g[y][x].crystalState == Human
    requires Fits(g, w, h, s)
    ensures Sound(g, w, h, Decide(g[y][x], x, y, p, dr, s), 0.0 <= g[y][x].prosperity <= 100.0)
  {
    if |s.beta| > 0 {
      assert s.beta[dr.mine(x, y) % |s.beta|] in s.beta;
    }
    if |s.targets| > 0 {
      assert s.targets[dr.settle(x, y) % |s.targets|] in s.targets;
    }
  }

  /** What one cell records respects the grid, and is tame when the grid's prosperity is bounded. */
  lemma CellChangesSound(g: Grid, w: int, h: int, p: SimulationParams, dr: HumanDraws, x: int, y: int)
    requires Shaped(g, w, h) && IsValidCoord(w, h, x, y)
    ensures Sound(g, w, h, CellChanges(g, w, h, p, dr, x, y), ProsperityBounded(g))
  {
    var c := g[y][x];
    if c.crystalState == Human && Survivable(c, p) {
      SurveyFits(g, w, h, p, x, y);
      DecideSound(g, w, h, p, dr, x, y, Survey(g, w, h, p, x, y));
    }
  }

  lemma {:induction false} RowChangesSound(g: Grid, w: int, h: int, t: ChangeTable, tame: bool, y: int, x: int)
    requires Shaped(g, w, h) && 0 <= y < |t| && x <= |t[y]|
    requires forall i :: 0 <= i < |t[y]| ==> Sound(g, w, h, t[y][i], tame)
    ensures Sound(g, w, h, RowChanges(t, y, x), tame)
    decreases x
  {
    if x > 0 {
      RowChangesSound(g, w, h, t, tame, y, x - 1);
      assert Sound(g, w, h, t[y][x - 1], tame);
    }
  }

  lemma {:induction false} ChangesAboveSound(g: Grid, w: int, h: int, t: ChangeTable, tame: bool, y: int)
    requires Shaped(g, w, h) && y <= |t| && forall j :: 0 <= j < |t| ==> |t[j]| == w
    requires forall j, i :: 0 <= j < |t| && 0 <= i < w ==> Sound(g, w, h, t[j][i], tame)
    ensures Sound(g, w, h, ChangesAbove(t, w, y), tame)
    decreases y
  {
    if y > 0 {
      ChangesAboveSound(g, w, h, t, tame, y - 1);
      RowChangesSound(g, w, h, t, tame, y - 1, w);
    }
  }

  /**
   * The whole list respects the grid it was computed from: no change aims
   * at an Alpha cell, settling aims only at existing cells, and a migration
   * goes from a settlement to an existing Empty cell. When every prosperity
   * lies in [0, 100], so does every migration's.
   */
  lemma AllChangesSound(g: Grid, w: int, h: int, p: SimulationParams, dr: HumanDraws)
    requires Shaped(g, w, h)
    ensures Sound(g, w, h, AllChanges(g, w, h, p, dr), ProsperityBounded(g))
  {
    var t := Evaluations(g, w, h, p, dr);
    var tame := ProsperityBounded(g);
    forall j, i | 0 <= j < h && 0 <= i < w
      ensures Sound(g, w, h, t[j][i], tame)
    {
      CellChangesSound(g, w, h, p, dr, i, j);
    }
    ChangesAboveSound(g, w, h, t, tame, h);
  }
}
