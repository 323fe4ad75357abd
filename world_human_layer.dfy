/**
 * UpdateHumanLayer as a whole: with no settlement on the grid, one is
 * founded at random and nothing else happens; otherwise every settlement is
 * evaluated and the recorded changes are applied.
 */
module HumanLayer {
  import opened Wrappers
  import opened WorldMorphingTypes
  import opened WorldGrid
  import opened HumanCensus
  import opened HumanChanges
  import opened HumanApply

  /** Random cells tried before the layer gives up founding a settlement. */
  const SpawnAttempts := 100

  /** Past this attempt, the temperature is no longer asked about. */
  const RelaxedAfter := 50

  /** The cell of attempt k: RandRange(0, Width - 1) and RandRange(0, Height - 1). */
  function SpawnAt(w: int, h: int, dr: HumanDraws, k: int): (c: Coord)
    requires w > 0 && h > 0
    ensures IsValidCoord(w, h, c.x, c.y)
  {
    Coord(dr.spawnX(k) % w, dr.spawnY(k) % h)
  }

  /** Attempt k may found a settlement on c: c exists, is not Alpha, and is comfortable unless the attempt is past RelaxedAfter. */
  predicate CanSettle(c: Cell, p: SimulationParams, k: int)
  {
    c.inWorld && c.crystalState != Alpha && (Comfortable(c, p) || k > RelaxedAfter)
  }

  /** Attempt k succeeds. */
  predicate Settles(g: Grid, w: int, h: int, p: SimulationParams, dr: HumanDraws, k: int)
    requires Shaped(g, w, h) && w > 0 && h > 0
  {
    var c := SpawnAt(w, h, dr, k);
    CanSettle(g[c.y][c.x], p, k)
  }

  /** The cell of the first successful attempt from attempt k on, if any. */
  function FirstSpawn(g: Grid, w: int, h: int, p: SimulationParams, dr: HumanDraws, k: nat): (r: Option<Coord>)
    requires Shaped(g, w, h) && w > 0 && h > 0 && k <= SpawnAttempts
    ensures r.Some? ==> IsValidCoord(w, h, r.value.x, r.value.y)
    decreases SpawnAttempts - k
  {
    if k == SpawnAttempts then None
    else if Settles(g, w, h, p, dr, k) then Some(SpawnAt(w, h, dr, k))
    else FirstSpawn(g, w, h, p, dr, k + 1)
  }

  /**
   * The founding is the first success among the attempts from k on: there is
   * none exactly when every attempt fails, and otherwise it is the cell of a
   * successful attempt after only failed ones.
   */
  lemma {:induction false} FirstSpawnIsFirst(g: Grid, w: int, h: int, p: SimulationParams, dr: HumanDraws, k: nat)
    requires Shaped(g, w, h) && w > 0 && h > 0 && k <= SpawnAttempts
    ensures FirstSpawn(g, w, h, p, dr, k).None? <==> forall j :: k <= j < SpawnAttempts ==> !Settles(g, w, h, p, dr, j)
    ensures FirstSpawn(g, w, h, p, dr, k).Some? ==>
      exists j :: k <= j < SpawnAttempts && Settles(g, w, h, p, dr, j)
                  && FirstSpawn(g, w, h, p, dr, k).value == SpawnAt(w, h, dr, j)
                  && forall i :: k <= i < j ==> !Settles(g, w, h, p, dr, i)
    decreases SpawnAttempts - k
  {
    if k < SpawnAttempts {
      FirstSpawnIsFirst(g, w, h, p, dr, k + 1);
      if Settles(g, w, h, p, dr, k) {
        assert k <= k < SpawnAttempts && Settles(g, w, h, p, dr, k);
      } else if FirstSpawn(g, w, h, p, dr, k + 1).Some? {
        var j :| k + 1 <= j < SpawnAttempts && Settles(g, w, h, p, dr, j)
                 && FirstSpawn(g, w, h, p, dr, k + 1).value == SpawnAt(w, h, dr, j)
                 && forall i :: k + 1 <= i < j ==> !Settles(g, w, h, p, dr, i);
        assert forall i :: k <= i < j ==> !Settles(g, w, h, p, dr, i);
      }
    }
  }

  /** The grid after step 1 when there is no settlement: the founded cell, if any, becomes Human with prosperity 50. */
  function Bootstrapped(g: Grid, w: int, h: int, p: SimulationParams, dr: HumanDraws): (r: Grid)
    requires Shaped(g, w, h) && w > 0 && h > 0
    ensures Shaped(r, w, h)
  {
    match FirstSpawn(g, w, h, p, dr, 0)
    case None => g
    case Some(c) => Put(g, c.x, c.y, g[c.y][c.x].(crystalState := Human, prosperity := 50.0))
  }

  /** Step 1 when HumanCount is 0: up to SpawnAttempts random cells, stopping at the first that may be settled. */
  method Bootstrap(g: Grid, w: int, h: int, p: SimulationParams, dr: HumanDraws) returns (r: Grid)
    requires Shaped(g, w, h) && w > 0 && h > 0
    ensures r == Bootstrapped(g, w, h, p, dr)
  {
    r := g;
    var attempts := 0;
    while attempts < SpawnAttempts
      invariant 0 <= attempts <= SpawnAttempts
      invariant FirstSpawn(g, w, h, p, dr, attempts) == FirstSpawn(g, w, h, p, dr, 0)
    {
      var rx := dr.spawnX(attempts) % w;
      var ry := dr.spawnY(attempts) % h;
      var cell := g[ry][rx];
      var suitable := cell.temperature >= p.humanMinTemp && cell.temperature <= p.humanMaxTemp;
      assert SpawnAt(w, h, dr, attempts) == Coord(rx, ry);
      assert suitable == Comfortable(cell, p);
      if cell.inWorld && cell.crystalState != Alpha && (suitable || attempts > RelaxedAfter) {
        r := Put(g, rx, ry, cell.(crystalState := Human, prosperity := 50.0));
        SpawnFound(g, w, h, p, dr, attempts);
        return;
      }
      SpawnFailed(g, w, h, p, dr, attempts);
      attempts := attempts + 1;
    }
  }

  /** A successful attempt, reached after failures only, is the founding. */
  lemma SpawnFound(g: Grid, w: int, h: int, p: SimulationParams, dr: HumanDraws, k: nat)
    requires Shaped(g, w, h) && w > 0 && h > 0 && k < SpawnAttempts
    requires FirstSpawn(g, w, h, p, dr, k) == FirstSpawn(g, w, h, p, dr, 0)
    requires var c := SpawnAt(w, h, dr, k); CanSettle(g[c.y][c.x], p, k)
    ensures var c := SpawnAt(w, h, dr, k);
      Bootstrapped(g, w, h, p, dr) == Put(g, c.x, c.y, g[c.y][c.x].(crystalState := Human, prosperity := 50.0))
  {
    assert Settles(g, w, h, p, dr, k);
  }

  /** A failed attempt passes the search on to the next one. */
  lemma SpawnFailed(g: Grid, w: int, h: int, p: SimulationParams, dr: HumanDraws, k: nat)
    requires Shaped(g, w, h) && w > 0 && h > 0 && k < SpawnAttempts
    requires var c := SpawnAt(w, h, dr, k); !CanSettle(g[c.y][c.x], p, k)
    ensures FirstSpawn(g, w, h, p, dr, k + 1) == FirstSpawn(g, w, h, p, dr, k)
  {
    assert !Settles(g, w, h, p, dr, k);
  }

  /**
   * The founding touches one cell at most: the cell of the first successful
   * attempt, an existing cell that is not Alpha, which becomes a Human
   * settlement with prosperity 50. When every attempt fails the grid is
   * unchanged.
   */
  lemma BootstrapFounds(g: Grid, w: int, h: int, p: SimulationParams, dr: HumanDraws)
    requires Shaped(g, w, h) && w > 0 && h > 0
    ensures var r := Bootstrapped(g, w, h, p, dr);
      ((forall j :: 0 <= j < SpawnAttempts ==> !Settles(g, w, h, p, dr, j)) ==> r == g)
      && forall y, x :: 0 <= y < h && 0 <= x < w && r[y][x] != g[y][x] ==>
           (exists j :: 0 <= j < SpawnAttempts && Settles(g, w, h, p, dr, j) && SpawnAt(w, h, dr, j) == Coord(x, y)
                        && forall i :: 0 <= i < j ==> !Settles(g, w, h, p, dr, i))
           && g[y][x].inWorld && g[y][x].crystalState != Alpha
           && r[y][x] == g[y][x].(crystalState := Human, prosperity := 50.0)
  {
    FirstSpawnIsFirst(g, w, h, p, dr, 0);
  }

  // ---------------------------------------------------------------------
  // The layer.

  /** The grid UpdateHumanLayer leaves. */
  function HumanStep(g: Grid, w: int, h: int, p: SimulationParams, dr: HumanDraws): (r: Grid)
    requires Shaped(g, w, h) && w > 0 && h > 0
    ensures Shaped(r, w, h)
  {
    if GridHumans(g) == 0 then Bootstrapped(g, w, h, p, dr)
    else
      var cs := AllChanges(g, w, h, p, dr);
      AllChangesSound(g, w, h, p, dr);
      ApplyAllKeeps(g, w, h, cs, false);
      ApplyAll(g, w, h, cs)
  }

  /**
   * UpdateHumanLayer: count the settlements; with none, found one and stop;
   * otherwise record every settlement's changes against the grid as it
   * stands, then apply them in order. The grid is never empty here: the
   * tick returns early on an empty grid before any layer runs.
   */
  method UpdateHumanLayer(g: Grid, w: int, h: int, p: SimulationParams, dr: HumanDraws) returns (r: Grid)
    requires Shaped(g, w, h) && w > 0 && h > 0
    ensures r == HumanStep(g, w, h, p, dr)
    ensures Kept(g, r, w, h)
    ensures ProsperityBounded(g) ==> ProsperityBounded(r)
    ensures Clean(g) ==> Clean(r)
  {
    var count := CountHumans(g, w, h);
    if count == 0 {
      r := Bootstrap(g, w, h, p, dr);
    } else {
      var changes := CollectChanges(g, w, h, p, dr);
      AllChangesSound(g, w, h, p, dr);
      ApplyAllKeeps(g, w, h, changes, false);
      r := ApplyChanges(g, w, h, changes);
    }
    HumanStepKeeps(g, w, h, p, dr);
  }

  /**
   * Across the layer every cell changes at most its state, to Empty or
   * Human, and its prosperity; no Alpha cell is touched; a new settlement
   * stands on an existing cell; prosperity in [0, 100] stays there; and a
   * clean grid stays clean.
   */
  lemma HumanStepKeeps(g: Grid, w: int, h: int, p: SimulationParams, dr: HumanDraws)
    requires Shaped(g, w, h) && w > 0 && h > 0
    ensures Kept(g, HumanStep(g, w, h, p, dr), w, h)
    ensures ProsperityBounded(g) ==> ProsperityBounded(HumanStep(g, w, h, p, dr))
    ensures Clean(g) ==> Clean(HumanStep(g, w, h, p, dr))
  {
    var r := HumanStep(g, w, h, p, dr);
    if GridHumans(g) == 0 {
      BootstrapFounds(g, w, h, p, dr);
      forall y, x | 0 <= y < h && 0 <= x < w
        ensures HumanOnly(g[y][x], r[y][x])
        ensures 0.0 <= g[y][x].prosperity <= 100.0 ==> 0.0 <= r[y][x].prosperity <= 100.0
      {
      }
    } else {
      AllChangesSound(g, w, h, p, dr);
      ApplyAllKeeps(g, w, h, AllChanges(g, w, h, p, dr), ProsperityBounded(g));
    }
    if Clean(g) {
      KeptClean(g, r, w, h);
    }
  }
}
