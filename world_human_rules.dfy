/**
 * What a surviving settlement records in one step, stated against its
 * surroundings on the grid: its prosperity update, when it mines, when it
 * expands and when it migrates.
 */
module HumanRules {
  import opened WorldMorphingTypes
  import opened WorldGrid
  import opened HumanCensus
  import opened HumanChanges

  /** The prosperity the settlement at (x, y) records for itself. */
  function NextProsperity(g: Grid, w: int, h: int, p: SimulationParams, x: int, y: int): real
    requires Shaped(g, w, h) && IsValidCoord(w, h, x, y)
  {
    g[y][x].prosperity + ProsperityDelta(g[y][x], p, Survey(g, w, h, p, x, y))
  }

  /** Some cell adjacent to (x, y) in the grid is of kind k. */
  ghost predicate NextTo(g: Grid, w: int, h: int, x: int, y: int, k: HumanKind)
    requires Shaped(g, w, h)
  {
    exists n: Coord :: IsValidCoord(w, h, n.x, n.y) && Adjacent(n, Coord(x, y)) && IsHumanKind(g[n.y][n.x], k)
  }

  /** The cells Select picks from the neighbours of (x, y) are the adjacent cells of kind k; there are some exactly when NextTo holds. */
  lemma SelectNeighbors(g: Grid, w: int, h: int, x: int, y: int, k: HumanKind)
    requires Shaped(g, w, h)
    ensures forall c :: c in Neighbors(w, h, x, y) ==> 0 <= c.y < |g| && 0 <= c.x < |g[c.y]|
    ensures forall c :: c in Select(g, Neighbors(w, h, x, y), k) ==>
      IsValidCoord(w, h, c.x, c.y) && Adjacent(c, Coord(x, y)) && IsHumanKind(g[c.y][c.x], k)
    ensures |Select(g, Neighbors(w, h, x, y), k)| > 0 <==> NextTo(g, w, h, x, y, k)
  {
    NeighborsInGrid(g, w, h, x, y);
    NeighborsValid(w, h, x, y);
    var s := Select(g, Neighbors(w, h, x, y), k);
    if NextTo(g, w, h, x, y, k) {
      var n: Coord :| IsValidCoord(w, h, n.x, n.y) && Adjacent(n, Coord(x, y)) && IsHumanKind(g[n.y][n.x], k);
      NeighborsExactly(w, h, x, y, n);
      assert n in s;
    }
    if |s| > 0 {
      assert s[0] in s;
    }
  }

  /**
   * A surviving settlement records exactly one prosperity change, for
   * itself, holding its prosperity plus the delta. The value is recorded
   * before any expansion cost is considered, so an expansion in the same
   * step leaves it as it is.
   */
  lemma ProsperityRecorded(g: Grid, w: int, h: int, p: SimulationParams, dr: HumanDraws, x: int, y: int)
    requires Shaped(g, w, h) && IsValidCoord(w, h, x, y)
    requires g[y][x].crystalState == Human && Survivable(g[y][x], p)
    ensures var next := NextProsperity(g, w, h, p, x, y);
      var cs := CellChanges(g, w, h, p, dr, x, y);
      HumanChange(x, y, ProsperityChange, next, 0, 0) in cs
      && forall ch :: ch in cs && ch.kind == ProsperityChange ==> ch == HumanChange(x, y, ProsperityChange, next, 0, 0)
  {
    assert CellChanges(g, w, h, p, dr, x, y) == Decide(g[y][x], x, y, p, dr, Survey(g, w, h, p, x, y));
    DecideRecords(g[y][x], x, y, p, dr, Survey(g, w, h, p, x, y));
  }

  /** Decide records exactly one prosperity change, for the settlement itself, with its prosperity plus the delta. */
  lemma DecideRecords(c: Cell, x: int, y: int, p: SimulationParams, dr: HumanDraws, s: Surroundings)
    ensures var cs := Decide(c, x, y, p, dr, s);
      var own := HumanChange(x, y, ProsperityChange, c.prosperity + ProsperityDelta(c, p, s), 0, 0);
      own in cs && forall ch :: ch in cs && ch.kind == ProsperityChange ==> ch == own
  {
  }

  /** A surviving settlement's changes are what it decides from its survey. */
  lemma ChangesDecided(g: Grid, w: int, h: int, p: SimulationParams, dr: HumanDraws, x: int, y: int)
    requires Shaped(g, w, h) && IsValidCoord(w, h, x, y)
    requires g[y][x].crystalState == Human && Survivable(g[y][x], p)
    ensures CellChanges(g, w, h, p, dr, x, y) == Decide(g[y][x], x, y, p, dr, Survey(g, w, h, p, x, y))
    ensures forall c :: c in Neighbors(w, h, x, y) ==> 0 <= c.x < w && 0 <= c.y < h
    ensures var s := Survey(g, w, h, p, x, y);
      var ns := Neighbors(w, h, x, y);
      s.beta == Select(g, ns, BetaCell) && s.targets == Select(g, ns, Target) && s.best == BestHaven(g, w, h, p, ns)
  {
    NeighborsValid(w, h, x, y);
  }

  /** Decide records a mining exactly when there is a Beta neighbour, and mines one of them. */
  lemma DecideMines(c: Cell, x: int, y: int, p: SimulationParams, dr: HumanDraws, s: Surroundings)
    ensures var cs := Decide(c, x, y, p, dr, s);
      ((exists ch :: ch in cs && ch.kind == StateChange && ch.value == 0.0) <==> |s.beta| > 0)
      && forall ch :: ch in cs && ch.kind == StateChange && ch.value == 0.0 ==> Coord(ch.x, ch.y) in s.beta
  {
    if |s.beta| > 0 {
      var m := s.beta[dr.mine(x, y) % |s.beta|];
      assert m in s.beta;
      assert StateAt(m, 0.0) in Decide(c, x, y, p, dr, s);
    }
  }

  /** Decide records a settling exactly when the next prosperity exceeds the threshold and there is a target, and settles one of them. */
  lemma DecideExpands(c: Cell, x: int, y: int, p: SimulationParams, dr: HumanDraws, s: Surroundings)
    ensures var cs := Decide(c, x, y, p, dr, s);
      var next := c.prosperity + ProsperityDelta(c, p, s);
      ((exists ch :: ch in cs && ch.kind == StateChange && ch.value == 1.0) <==> next > p.humanExpansionThreshold && |s.targets| > 0)
      && forall ch :: ch in cs && ch.kind == StateChange && ch.value == 1.0 ==> Coord(ch.x, ch.y) in s.targets
  {
    var next := c.prosperity + ProsperityDelta(c, p, s);
    if next > p.humanExpansionThreshold && |s.targets| > 0 {
      var t := s.targets[dr.settle(x, y) % |s.targets|];
      assert t in s.targets;
      assert StateAt(t, 1.0) in Decide(c, x, y, p, dr, s);
    }
    if |s.beta| > 0 {
      assert s.beta[dr.mine(x, y) % |s.beta|] in s.beta;
    }
  }

  /** Decide records a migration exactly when the next prosperity is below the threshold and the best haven scores above 0; it goes there with 0.8 of the prosperity. */
  lemma DecideMigrates(c: Cell, x: int, y: int, p: SimulationParams, dr: HumanDraws, s: Surroundings)
    ensures var cs := Decide(c, x, y, p, dr, s);
      var next := c.prosperity + ProsperityDelta(c, p, s);
      ((exists ch :: ch in cs && ch.kind == MigrateChange) <==>
         next < p.humanMigrationThreshold && s.best.cell.Some? && s.best.score > 0.0)
      && forall ch :: ch in cs && ch.kind == MigrateChange ==>
           s.best.cell.Some? && ch == HumanChange(x, y, MigrateChange, c.prosperity * 0.8, s.best.cell.value.x, s.best.cell.value.y)
  {
  }

  /**
   * A surviving settlement mines (records the emptying of a cell) exactly
   * when a Beta cell lies next to it, and what it mines is such a cell.
   */
  lemma MiningRule(g: Grid, w: int, h: int, p: SimulationParams, dr: HumanDraws, x: int, y: int)
    requires Shaped(g, w, h) && IsValidCoord(w, h, x, y)
    requires g[y][x].crystalState == Human && Survivable(g[y][x], p)
    ensures var cs := CellChanges(g, w, h, p, dr, x, y);
      ((exists ch :: ch in cs && ch.kind == StateChange && ch.value == 0.0) <==> NextTo(g, w, h, x, y, BetaCell))
      && forall ch :: ch in cs && ch.kind == StateChange && ch.value == 0.0 ==>
           IsValidCoord(w, h, ch.x, ch.y) && Adjacent(Coord(ch.x, ch.y), Coord(x, y)) && g[ch.y][ch.x].crystalState == Beta
  {
    ChangesDecided(g, w, h, p, dr, x, y);
    DecideMines(g[y][x], x, y, p, dr, Survey(g, w, h, p, x, y));
    SelectNeighbors(g, w, h, x, y, BetaCell);
  }

  /**
   * A surviving settlement expands (records the settling of a cell) exactly
   * when its next prosperity exceeds HumanExpansionThreshold and an existing
   * cell that is neither Alpha nor Human lies next to it; what it settles is
   * such a cell.
   */
  lemma ExpansionRule(g: Grid, w: int, h: int, p: SimulationParams, dr: HumanDraws, x: int, y: int)
    requires Shaped(g, w, h) && IsValidCoord(w, h, x, y)
    requires g[y][x].crystalState == Human && Survivable(g[y][x], p)
    ensures var cs := CellChanges(g, w, h, p, dr, x, y);
      ((exists ch :: ch in cs && ch.kind == StateChange && ch.value == 1.0) <==>
         NextProsperity(g, w, h, p, x, y) > p.humanExpansionThreshold && NextTo(g, w, h, x, y, Target))
      && forall ch :: ch in cs && ch.kind == StateChange && ch.value == 1.0 ==>
           IsValidCoord(w, h, ch.x, ch.y) && Adjacent(Coord(ch.x, ch.y), Coord(x, y)) && IsHumanKind(g[ch.y][ch.x], Target)
  {
    ChangesDecided(g, w, h, p, dr, x, y);
    DecideExpands(g[y][x], x, y, p, dr, Survey(g, w, h, p, x, y));
    SelectNeighbors(g, w, h, x, y, Target);
  }

  /**
   * A surviving settlement migrates exactly when its next prosperity is
   * below HumanMigrationThreshold and some existing Empty cell next to it
   * scores above 0. It carries 0.8 of its current prosperity to an adjacent
   * haven whose score no adjacent haven exceeds.
   */
  lemma MigrationRule(g: Grid, w: int, h: int, p: SimulationParams, dr: HumanDraws, x: int, y: int)
    requires Shaped(g, w, h) && IsValidCoord(w, h, x, y)
    requires g[y][x].crystalState == Human && Survivable(g[y][x], p)
    ensures var cs := CellChanges(g, w, h, p, dr, x, y);
      ((exists ch :: ch in cs && ch.kind == MigrateChange) <==>
         NextProsperity(g, w, h, p, x, y) < p.humanMigrationThreshold
         && exists n: Coord :: IsValidCoord(w, h, n.x, n.y) && Adjacent(n, Coord(x, y))
                              && IsHumanKind(g[n.y][n.x], Haven) && Score(g, w, h, p, n) > 0.0)
      && forall ch :: ch in cs && ch.kind == MigrateChange ==>
           ch.x == x && ch.y == y && ch.value == g[y][x].prosperity * 0.8
           && IsValidCoord(w, h, ch.toX, ch.toY) && Adjacent(Coord(ch.toX, ch.toY), Coord(x, y))
           && IsHumanKind(g[ch.toY][ch.toX], Haven)
           && forall n: Coord :: IsValidCoord(w, h, n.x, n.y) && Adjacent(n, Coord(x, y)) && IsHumanKind(g[n.y][n.x], Haven) ==>
                Score(g, w, h, p, n) <= Score(g, w, h, p, Coord(ch.toX, ch.toY))
  {
    ChangesDecided(g, w, h, p, dr, x, y);
    DecideMigrates(g[y][x], x, y, p, dr, Survey(g, w, h, p, x, y));
    NeighborsValid(w, h, x, y);
    var ns := Neighbors(w, h, x, y);
    BestNone(g, w, h, p, ns);
    BestSome(g, w, h, p, ns);
    BestMax(g, w, h, p, ns);
    forall n: Coord | IsValidCoord(w, h, n.x, n.y) && Adjacent(n, Coord(x, y))
      ensures n in ns
    {
      NeighborsExactly(w, h, x, y, n);
    }
  }
}
