/**
 * UpdateHumanLayer: the settlement count, the neighbour lists a settlement
 * builds (Human, Beta, expansion targets), the migration score of a
 * neighbour and the choice of the best one.
 */
module HumanCensus {
  import opened Wrappers
  import opened WorldMorphingTypes
  import opened WorldGrid

  // ---------------------------------------------------------------------
  // The settlement count of step 1.

  /** The Human cells of one row. */
  function RowHumans(row: seq<Cell>): nat
  {
    if row == [] then 0
    else RowHumans(row[..|row| - 1]) + (if row[|row| - 1].crystalState == Human then 1 else 0)
  }

  /** The Human cells of a grid, row by row. */
  function GridHumans(g: Grid): nat
  {
    if g == [] then 0 else GridHumans(g[..|g| - 1]) + RowHumans(g[|g| - 1])
  }

  lemma {:induction false} NoRowHumans(row: seq<Cell>)
    ensures RowHumans(row) == 0 <==> forall x :: 0 <= x < |row| ==> row[x].crystalState != Human
  {
    if row != [] {
      var init := row[..|row| - 1];
      NoRowHumans(init);
      assert forall x :: 0 <= x < |init| ==> init[x] == row[x];
    }
  }

  /** The count is zero exactly when no cell holds a settlement. */
  lemma {:induction false} NoHumans(g: Grid)
    ensures GridHumans(g) == 0 <==> forall y, x :: 0 <= y < |g| && 0 <= x < |g[y]| ==> g[y][x].crystalState != Human
  {
    if g != [] {
      var init := g[..|g| - 1];
      NoHumans(init);
      NoRowHumans(g[|g| - 1]);
      assert forall y :: 0 <= y < |init| ==> init[y] == g[y];
    }
  }

  /** HumanCount: the double loop over the grid. */
  method CountHumans(g: Grid, w: int, h: int) returns (count: int)
    requires Shaped(g, w, h)
    ensures count == GridHumans(g)
    ensures count == 0 <==> forall y, x :: 0 <= y < h && 0 <= x < w ==> g[y][x].crystalState != Human
  {
    count := 0;
    var y := 0;
    while y < h
      invariant 0 <= y <= h
      invariant count == GridHumans(g[..y])
    {
      var x := 0;
      while x < w
        invariant 0 <= x <= w
        invariant count == GridHumans(g[..y]) + RowHumans(g[y][..x])
      {
        assert g[y][..x + 1][..x] == g[y][..x];
        if g[y][x].crystalState == Human {
          count := count + 1;
        }
        x := x + 1;
      }
      assert g[y][..x] == g[y];
      assert g[..y + 1][..y] == g[..y];
      y := y + 1;
    }
    assert g[..y] == g;
    NoHumans(g);
  }

  // ---------------------------------------------------------------------
  // Neighbour lists.

  /** The lists a settlement builds from its neighbours. */
  datatype HumanKind =
    | HumanCell   // HumanNeighborCount counts these
    | BetaCell    // BetaNeighbors: the mining candidates
    | Target      // ValidTargets: existing cells that are neither Alpha nor Human
    | Haven       // migration candidates: existing Empty cells

  predicate IsHumanKind(c: Cell, k: HumanKind)
  {
    match k
    case HumanCell => c.crystalState == Human
    case BetaCell => c.crystalState == Beta
    case Target => c.inWorld && c.crystalState != Alpha && c.crystalState != Human
    case Haven => c.inWorld && c.crystalState == Empty
  }

  /** The cells among ns of kind k, in the order of ns. */
  function Select(g: Grid, ns: seq<Coord>, k: HumanKind): (r: seq<Coord>)
    requires forall c :: c in ns ==> 0 <= c.y < |g| && 0 <= c.x < |g[c.y]|
    ensures forall c :: c in r <==> c in ns && IsHumanKind(g[c.y][c.x], k)
    ensures |r| <= |ns|
  {
    if ns == [] then []
    else
      var c := ns[|ns| - 1];
      Select(g, ns[..|ns| - 1], k) + (if IsHumanKind(g[c.y][c.x], k) then [c] else [])
  }

  /** One neighbour loop that builds a list (BetaNeighbors, ValidTargets). */
  method Collect(g: Grid, ns: seq<Coord>, k: HumanKind) returns (r: seq<Coord>)
    requires forall c :: c in ns ==> 0 <= c.y < |g| && 0 <= c.x < |g[c.y]|
    ensures r == Select(g, ns, k)
  {
    r := [];
    var i := 0;
    while i < |ns|
      invariant 0 <= i <= |ns|
      invariant r == Select(g, ns[..i], k)
    {
      assert ns[..i + 1][..i] == ns[..i];
      var n := ns[i];
      if IsHumanKind(g[n.y][n.x], k) {
        r := r + [n];
      }
      i := i + 1;
    }
    assert ns[..i] == ns;
  }

  /** One neighbour loop that only counts (HumanNeighborCount). */
  method CountOf(g: Grid, ns: seq<Coord>, k: HumanKind) returns (n: int)
    requires forall c :: c in ns ==> 0 <= c.y < |g| && 0 <= c.x < |g[c.y]|
    ensures n == |Select(g, ns, k)|
  {
    n := 0;
    var i := 0;
    while i < |ns|
      invariant 0 <= i <= |ns|
      invariant n == |Select(g, ns[..i], k)|
    {
      assert ns[..i + 1][..i] == ns[..i];
      var c := ns[i];
      if IsHumanKind(g[c.y][c.x], k) {
        n := n + 1;
      }
      i := i + 1;
    }
    assert ns[..i] == ns;
  }

  // ---------------------------------------------------------------------
  // Migration.

  /** The temperature band settlements prosper in: [HumanMinTemp, HumanMaxTemp]. */
  predicate Comfortable(c: Cell, p: SimulationParams)
  {
    p.humanMinTemp <= c.temperature <= p.humanMaxTemp
  }

  /** A migration candidate's score: 10 in the comfortable band, plus 1 per Beta neighbour (mines to work). */
  function Score(g: Grid, w: int, h: int, p: SimulationParams, c: Coord): (r: real)
    requires Shaped(g, w, h) && IsValidCoord(w, h, c.x, c.y)
    ensures r >= 0.0
  {
    NeighborsInGrid(g, w, h, c.x, c.y);
    (if Comfortable(g[c.y][c.x], p) then 10.0 else 0.0) + |Select(g, Neighbors(w, h, c.x, c.y), BetaCell)| as real
  }

  /** The score loop over the candidate's own neighbours. */
  method ScoreOf(g: Grid, w: int, h: int, p: SimulationParams, c: Coord) returns (s: real)
    requires Shaped(g, w, h) && IsValidCoord(w, h, c.x, c.y)
    ensures s == Score(g, w, h, p, c)
  {
    s := 0.0;
    if Comfortable(g[c.y][c.x], p) {
      s := s + 10.0;
    }
    var nns := GetNeighbors(w, h, c.x, c.y);
    NeighborsInGrid(g, w, h, c.x, c.y);
    s := AddBetas(g, nns, s);
  }

  /** The inner loop of the score: one point per Beta cell among nns. */
  method AddBetas(g: Grid, nns: seq<Coord>, base: real) returns (s: real)
    requires forall c :: c in nns ==> 0 <= c.y < |g| && 0 <= c.x < |g[c.y]|
    ensures s == base + |Select(g, nns, BetaCell)| as real
  {
    s := base;
    var i := 0;
    while i < |nns|
      invariant 0 <= i <= |nns|
      invariant s == base + |Select(g, nns[..i], BetaCell)| as real
    {
      assert nns[..i + 1][..i] == nns[..i];
      var nn := nns[i];
      assert nn in nns;
      if g[nn.y][nn.x].crystalState == Beta {
        s := s + 1.0;
      }
      i := i + 1;
    }
    assert nns[..i] == nns;
  }

  /** BestNeighbor and BestScore while the loop runs. */
  datatype Best = Best(cell: Option<Coord>, score: real)

  /** The neighbour loop of step E: the first haven with the strictly highest score, starting from -1000. */
  function BestHaven(g: Grid, w: int, h: int, p: SimulationParams, ns: seq<Coord>): Best
    requires Shaped(g, w, h) && forall c :: c in ns ==> 0 <= c.x < w && 0 <= c.y < h
  {
    if ns == [] then Best(None, -1000.0)
    else
      var b := BestHaven(g, w, h, p, ns[..|ns| - 1]);
      var n := ns[|ns| - 1];
      assert n in ns;
      if !IsHumanKind(g[n.y][n.x], Haven) then b
      else
        var s := Score(g, w, h, p, n);
        if s > b.score then Best(Some(n), s) else b
  }

  /** There is no best haven exactly when ns holds no haven. */
  lemma {:induction false} BestNone(g: Grid, w: int, h: int, p: SimulationParams, ns: seq<Coord>)
    requires Shaped(g, w, h) && forall c :: c in ns ==> 0 <= c.x < w && 0 <= c.y < h
    ensures var b := BestHaven(g, w, h, p, ns);
      (b.cell.None? <==> forall c :: c in ns ==> !IsHumanKind(g[c.y][c.x], Haven))
      && (b.cell.None? ==> b.score == -1000.0)
  {
    if ns != [] {
      var init := ns[..|ns| - 1];
      BestNone(g, w, h, p, init);
      assert forall c :: c in ns <==> c in init || c == ns[|ns| - 1];
    }
  }

  /** The best haven is a haven among ns, and the best score is its score. */
  lemma {:induction false} BestSome(g: Grid, w: int, h: int, p: SimulationParams, ns: seq<Coord>)
    requires Shaped(g, w, h) && forall c :: c in ns ==> 0 <= c.x < w && 0 <= c.y < h
    ensures var b := BestHaven(g, w, h, p, ns);
      b.cell.Some? ==> b.cell.value in ns && IsHumanKind(g[b.cell.value.y][b.cell.value.x], Haven)
                       && b.score == Score(g, w, h, p, b.cell.value)
  {
    if ns != [] {
      var init := ns[..|ns| - 1];
      BestSome(g, w, h, p, init);
      assert forall c :: c in init ==> c in ns;
    }
  }

  /** No haven among ns scores above the best score. */
  lemma {:induction false} BestMax(g: Grid, w: int, h: int, p: SimulationParams, ns: seq<Coord>)
    requires Shaped(g, w, h) && forall c :: c in ns ==> 0 <= c.x < w && 0 <= c.y < h
    ensures var b := BestHaven(g, w, h, p, ns);
      forall c :: c in ns && IsHumanKind(g[c.y][c.x], Haven) ==> Score(g, w, h, p, c) <= b.score
  {
    if ns != [] {
      var init := ns[..|ns| - 1];
      BestMax(g, w, h, p, init);
      assert forall c :: c in ns <==> c in init || c == ns[|ns| - 1];
    }
  }

  /** The best haven comes no later than any haven that reaches the best score: ties go to the first. */
  lemma {:induction false} BestFirst(g: Grid, w: int, h: int, p: SimulationParams, ns: seq<Coord>, i: int)
    requires Shaped(g, w, h) && forall c :: c in ns ==> 0 <= c.x < w && 0 <= c.y < h
    requires 0 <= i < |ns| && IsHumanKind(g[ns[i].y][ns[i].x], Haven)
    requires Score(g, w, h, p, ns[i]) == BestHaven(g, w, h, p, ns).score
    ensures BestHaven(g, w, h, p, ns).cell.Some?
    ensures BestHaven(g, w, h, p, ns).cell.value in ns[..i + 1]
  {
    var init := ns[..|ns| - 1];
    if i < |init| {
      BestBeforeLast(g, w, h, p, ns, i);
      BestFirst(g, w, h, p, init, i);
      assert init[..i + 1] == ns[..i + 1];
    } else {
      BestAtLast(g, w, h, p, ns);
      assert ns[..i + 1] == ns;
    }
  }

  /** A haven before the last that reaches the best score leaves the best as it was before the last. */
  lemma BestBeforeLast(g: Grid, w: int, h: int, p: SimulationParams, ns: seq<Coord>, i: int)
    requires Shaped(g, w, h) && forall c :: c in ns ==> 0 <= c.x < w && 0 <= c.y < h
    requires 0 <= i < |ns| - 1 && IsHumanKind(g[ns[i].y][ns[i].x], Haven)
    requires Score(g, w, h, p, ns[i]) == BestHaven(g, w, h, p, ns).score
    ensures forall c :: c in ns[..|ns| - 1] ==> 0 <= c.x < w && 0 <= c.y < h
    ensures BestHaven(g, w, h, p, ns) == BestHaven(g, w, h, p, ns[..|ns| - 1])
    ensures ns[..|ns| - 1][i] == ns[i]
  {
    var init := ns[..|ns| - 1];
    assert forall c :: c in init ==> c in ns;
    assert init[i] == ns[i] && ns[i] in init;
    BestMax(g, w, h, p, init);
  }

  /** When the last of ns is a haven reaching the best score, there is a best haven among ns. */
  lemma BestAtLast(g: Grid, w: int, h: int, p: SimulationParams, ns: seq<Coord>)
    requires Shaped(g, w, h) && forall c :: c in ns ==> 0 <= c.x < w && 0 <= c.y < h
    requires |ns| > 0 && IsHumanKind(g[ns[|ns| - 1].y][ns[|ns| - 1].x], Haven)
    requires Score(g, w, h, p, ns[|ns| - 1]) == BestHaven(g, w, h, p, ns).score
    ensures BestHaven(g, w, h, p, ns).cell.Some? && BestHaven(g, w, h, p, ns).cell.value in ns
  {
    var init := ns[..|ns| - 1];
    assert forall c :: c in init ==> c in ns;
    BestNone(g, w, h, p, init);
    BestSome(g, w, h, p, init);
  }

  /** The loop of step E. */
  method FindBestHaven(g: Grid, w: int, h: int, p: SimulationParams, ns: seq<Coord>) returns (best: Option<Coord>, bestScore: real)
    requires Shaped(g, w, h) && forall c :: c in ns ==> 0 <= c.x < w && 0 <= c.y < h
    ensures Best(best, bestScore) == BestHaven(g, w, h, p, ns)
  {
    best, bestScore := None, -1000.0;
    var i := 0;
    while i < |ns|
      invariant 0 <= i <= |ns|
      invariant Best(best, bestScore) == BestHaven(g, w, h, p, ns[..i])
    {
      assert ns[..i + 1][..i] == ns[..i];
      var n := ns[i];
      if g[n.y][n.x].inWorld && g[n.y][n.x].crystalState == Empty {
        var score := ScoreOf(g, w, h, p, n);
        if score > bestScore {
          best, bestScore := Some(n), score;
        }
      }
      i := i + 1;
    }
    assert ns[..i] == ns;
  }
}
