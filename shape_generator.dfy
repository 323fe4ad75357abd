/**
 * UShapeGenerator::GenerateShapeWithCellularAutomata: a Width x Height
 * grid of booleans, row-major (cell (x, y) at index y * Width + x), seeded
 * at random and then smoothed by a cellular automaton that reads the whole
 * previous grid and writes a copy.
 *
 * The random stream built from the seed is a parameter: draws(k) is the
 * k-th FRand() value, so the result is a function of the seed's stream and
 * the other arguments.
 */
module ShapeGenerators {

  /** FShapeData. */
  datatype ShapeData = ShapeData(width: int, height: int, grid: seq<bool>)

  /** The raster index of an in-range cell lies in the grid, and the cell is recovered from it. */
  lemma RasterIndex(w: int, h: int, x: int, y: int)
    requires 0 <= x < w && 0 <= y < h
    ensures 0 <= y * w + x < w * h
    ensures (y * w + x) / w == y && (y * w + x) % w == x
  {
    MulAtMost(y + 1, h, w);
    var k := y * w + x;
    var q, m := k / w, k % w;
    assert w * q + m == w * y + x;
    if q > y {
      MulAtMost(1, q - y, w);
      assert false;
    }
    if q < y {
      MulAtMost(1, y - q, w);
      assert false;
    }
  }

  /** a <= b scales to a w <= b w for w >= 0. */
  lemma MulAtMost(a: int, b: int, w: int)
    requires a <= b && w >= 0
    ensures a * w <= b * w
  {
    assert (b - a) * w >= 0;
  }

  /** The cell (x, y) is in bounds and alive. */
  function Alive(grid: seq<bool>, w: int, h: int, x: int, y: int): bool
    requires |grid| == w * h
  {
    if 0 <= x < w && 0 <= y < h then
      RasterIndex(w, h, x, y);
      grid[y * w + x]
    else false
  }

  /** What the neighbour at offset (nx, ny) adds to the count: the cell itself and dead or outside cells add nothing. */
  function Neighbour(grid: seq<bool>, w: int, h: int, x: int, y: int, nx: int, ny: int): nat
    requires |grid| == w * h
  {
    if (nx == 0 && ny == 0) || !Alive(grid, w, h, x + nx, y + ny) then 0 else 1
  }

  /** The count over row offset ny for column offsets -1 up to (not including) nxEnd. */
  function RowCount(grid: seq<bool>, w: int, h: int, x: int, y: int, ny: int, nxEnd: int): nat
    requires |grid| == w * h && -1 <= nxEnd <= 2
    decreases nxEnd + 1
  {
    if nxEnd == -1 then 0 else RowCount(grid, w, h, x, y, ny, nxEnd - 1) + Neighbour(grid, w, h, x, y, nxEnd - 1, ny)
  }

  /** The count over row offsets -1 up to (not including) nyEnd, each row over all three column offsets. */
  function BlockCount(grid: seq<bool>, w: int, h: int, x: int, y: int, nyEnd: int): nat
    requires |grid| == w * h && -1 <= nyEnd <= 2
    decreases nyEnd + 1
  {
    if nyEnd == -1 then 0 else BlockCount(grid, w, h, x, y, nyEnd - 1) + RowCount(grid, w, h, x, y, nyEnd - 1, 2)
  }

  /** Neighbors: the live in-bounds cells of the 3 x 3 block around (x, y), the cell itself excluded. */
  function NeighbourCount(grid: seq<bool>, w: int, h: int, x: int, y: int): nat
    requires |grid| == w * h
  {
    BlockCount(grid, w, h, x, y, 2)
  }

  /** 1 for a live in-bounds cell, 0 otherwise. */
  function LiveBit(grid: seq<bool>, w: int, h: int, x: int, y: int): nat
    requires |grid| == w * h
  {
    if Alive(grid, w, h, x, y) then 1 else 0
  }

  /** A row's count is the sum of its three offsets. */
  lemma RowCountIsThree(grid: seq<bool>, w: int, h: int, x: int, y: int, ny: int)
    requires |grid| == w * h
    ensures RowCount(grid, w, h, x, y, ny, 2)
            == Neighbour(grid, w, h, x, y, -1, ny) + Neighbour(grid, w, h, x, y, 0, ny) + Neighbour(grid, w, h, x, y, 1, ny)
  {
    assert RowCount(grid, w, h, x, y, ny, 0) == Neighbour(grid, w, h, x, y, -1, ny);
    assert RowCount(grid, w, h, x, y, ny, 1) == RowCount(grid, w, h, x, y, ny, 0) + Neighbour(grid, w, h, x, y, 0, ny);
  }

  /** The count is the number of live cells among the eight neighbours, and so lies in [0, 8]. */
  lemma NeighbourCountIsEight(grid: seq<bool>, w: int, h: int, x: int, y: int)
    requires |grid| == w * h
    ensures NeighbourCount(grid, w, h, x, y)
            == LiveBit(grid, w, h, x - 1, y - 1) + LiveBit(grid, w, h, x, y - 1) + LiveBit(grid, w, h, x + 1, y - 1)
             + LiveBit(grid, w, h, x - 1, y) + LiveBit(grid, w, h, x + 1, y)
             + LiveBit(grid, w, h, x - 1, y + 1) + LiveBit(grid, w, h, x, y + 1) + LiveBit(grid, w, h, x + 1, y + 1)
    ensures 0 <= NeighbourCount(grid, w, h, x, y) <= 8
  {
    RowCountIsThree(grid, w, h, x, y, -1);
    RowCountIsThree(grid, w, h, x, y, 0);
    RowCountIsThree(grid, w, h, x, y, 1);
    assert BlockCount(grid, w, h, x, y, 0) == RowCount(grid, w, h, x, y, -1, 2);
    assert BlockCount(grid, w, h, x, y, 1) == BlockCount(grid, w, h, x, y, 0) + RowCount(grid, w, h, x, y, 0, 2);
  }

  /** The two grids agree on the 3 x 3 block around (x, y). */
  ghost predicate AgreeAround(g1: seq<bool>, g2: seq<bool>, w: int, h: int, x: int, y: int)
    requires |g1| == w * h && |g2| == w * h
  {
    forall i, j :: x - 1 <= i <= x + 1 && y - 1 <= j <= y + 1 ==> Alive(g1, w, h, i, j) == Alive(g2, w, h, i, j)
  }

  /** Two grids that agree on the eight neighbours of (x, y) give (x, y) the same count. */
  lemma NeighbourCountLocal(g1: seq<bool>, g2: seq<bool>, w: int, h: int, x: int, y: int)
    requires |g1| == w * h && |g2| == w * h
    requires AgreeAround(g1, g2, w, h, x, y)
    ensures NeighbourCount(g1, w, h, x, y) == NeighbourCount(g2, w, h, x, y)
  {
    NeighbourCountIsEight(g1, w, h, x, y);
    NeighbourCountIsEight(g2, w, h, x, y);
    assert LiveBit(g1, w, h, x - 1, y - 1) == LiveBit(g2, w, h, x - 1, y - 1);
    assert LiveBit(g1, w, h, x, y - 1) == LiveBit(g2, w, h, x, y - 1);
    assert LiveBit(g1, w, h, x + 1, y - 1) == LiveBit(g2, w, h, x + 1, y - 1);
    assert LiveBit(g1, w, h, x - 1, y) == LiveBit(g2, w, h, x - 1, y);
    assert LiveBit(g1, w, h, x + 1, y) == LiveBit(g2, w, h, x + 1, y);
    assert LiveBit(g1, w, h, x - 1, y + 1) == LiveBit(g2, w, h, x - 1, y + 1);
    assert LiveBit(g1, w, h, x, y + 1) == LiveBit(g2, w, h, x, y + 1);
    assert LiveBit(g1, w, h, x + 1, y + 1) == LiveBit(g2, w, h, x + 1, y + 1);
  }

  /** The update of one cell: a live cell with fewer than SurvivalThreshold neighbours dies, a dead one with more than BirthThreshold is born. */
  function NextCell(alive: bool, neighbours: int, birth: int, survival: int): bool
  {
    if alive && neighbours < survival then false
    else if !alive && neighbours > birth then true
    else alive
  }

  /** A cell is alive afterwards exactly when it survives (alive, at least SurvivalThreshold neighbours) or is born (dead, more than BirthThreshold). */
  lemma NextCellRule(alive: bool, neighbours: int, birth: int, survival: int)
    ensures NextCell(alive, neighbours, birth, survival)
            == ((alive && neighbours >= survival) || (!alive && neighbours > birth))
  {
  }

  /** Cell k of the next grid: the rules applied to cell k of the previous grid and its neighbour count. */
  function NextAt(grid: seq<bool>, w: int, h: int, birth: int, survival: int, k: int): bool
    requires |grid| == w * h && w > 0 && 0 <= k < |grid|
  {
    NextCell(grid[k], NeighbourCount(grid, w, h, k % w, k / w), birth, survival)
  }

  /** The first n cells of the next grid, in raster order. */
  function StepCells(grid: seq<bool>, w: int, h: int, birth: int, survival: int, n: nat): (r: seq<bool>)
    requires |grid| == w * h && w > 0 && n <= |grid|
    ensures |r| == n
  {
    if n == 0 then [] else StepCells(grid, w, h, birth, survival, n - 1) + [NextAt(grid, w, h, birth, survival, n - 1)]
  }

  /** Each of the first n cells of the next grid is the rule applied at that cell. */
  lemma {:induction false} StepCellsAt(grid: seq<bool>, w: int, h: int, birth: int, survival: int, n: nat, k: int)
    requires |grid| == w * h && w > 0 && n <= |grid| && 0 <= k < n
    ensures StepCells(grid, w, h, birth, survival, n)[k] == NextAt(grid, w, h, birth, survival, k)
  {
    if k < n - 1 {
      StepCellsAt(grid, w, h, birth, survival, n - 1, k);
    }
  }

  /** One iteration: every cell updated from the counts of the previous grid. */
  function Step(grid: seq<bool>, w: int, h: int, birth: int, survival: int): (r: seq<bool>)
    requires |grid| == w * h
    ensures |r| == |grid|
  {
    if w <= 0 then grid else StepCells(grid, w, h, birth, survival, |grid|)
  }

  /** Cell (x, y) after an iteration follows the survival and birth rules on its neighbours in the previous grid. */
  lemma StepAt(grid: seq<bool>, w: int, h: int, birth: int, survival: int, x: int, y: int)
    requires |grid| == w * h && 0 <= x < w && 0 <= y < h
    ensures 0 <= y * w + x < |grid|
    ensures Step(grid, w, h, birth, survival)[y * w + x]
            == NextCell(grid[y * w + x], NeighbourCount(grid, w, h, x, y), birth, survival)
  {
    RasterIndex(w, h, x, y);
    StepCellsAt(grid, w, h, birth, survival, |grid|, y * w + x);
  }

  /** An iteration reads only the previous grid: grids that agree on the 3 x 3 block around a cell give that cell the same next state. */
  lemma StepLocal(g1: seq<bool>, g2: seq<bool>, w: int, h: int, birth: int, survival: int, x: int, y: int)
    requires |g1| == w * h && |g2| == w * h && 0 <= x < w && 0 <= y < h
    requires AgreeAround(g1, g2, w, h, x, y)
    ensures 0 <= y * w + x < w * h
    ensures Step(g1, w, h, birth, survival)[y * w + x] == Step(g2, w, h, birth, survival)[y * w + x]
  {
    StepAt(g1, w, h, birth, survival, x, y);
    StepAt(g2, w, h, birth, survival, x, y);
    NeighbourCountLocal(g1, g2, w, h, x, y);
    assert Alive(g1, w, h, x, y) == Alive(g2, w, h, x, y);
  }

  /** The grid after n iterations. */
  function Iterate(grid: seq<bool>, w: int, h: int, n: nat, birth: int, survival: int): (r: seq<bool>)
    requires |grid| == w * h
    ensures |r| == |grid|
  {
    if n == 0 then grid else Step(Iterate(grid, w, h, n - 1, birth, survival), w, h, birth, survival)
  }

  /** Iteration n + 1 is one more step after iteration n. */
  lemma IterateNext(grid: seq<bool>, w: int, h: int, n: nat, birth: int, survival: int)
    requires |grid| == w * h
    ensures Iterate(grid, w, h, n + 1, birth, survival) == Step(Iterate(grid, w, h, n, birth, survival), w, h, birth, survival)
  {
  }

  /** The random fill: cell k is alive when the k-th draw is below one half. */
  function Fill(w: int, h: int, draws: nat -> real): (r: seq<bool>)
    requires w >= 0 && h >= 0
    ensures |r| == w * h
    ensures forall k :: 0 <= k < w * h ==> r[k] == (draws(k) < 0.5)
  {
    MulAtMost(0, h, w);
    seq(w * h, k requires 0 <= k => draws(k) < 0.5)
  }

  /** The first stage: every cell, in raster order, set from the next draw. */
  method FillGrid(w: int, h: int, draws: nat -> real) returns (grid: seq<bool>)
    requires w >= 0 && h >= 0
    ensures grid == Fill(w, h, draws)
  {
    MulAtMost(0, h, w);
    grid := seq(w * h, _ => false);
    for y := 0 to h
      invariant |grid| == w * h
      invariant forall k :: 0 <= k < w * h ==> grid[k] == (k < y * w && draws(k) < 0.5)
    {
      for x := 0 to w
        invariant |grid| == w * h
        invariant forall k :: 0 <= k < w * h ==> grid[k] == (k < y * w + x && draws(k) < 0.5)
      {
        RasterIndex(w, h, x, y);
        grid := grid[y * w + x := draws(y * w + x) < 0.5];
      }
      assert y * w + w == (y + 1) * w;
    }
    assert h * w == w * h;
  }

  /** The inner double loop: the live in-bounds neighbours of (x, y), offsets taken row by row. */
  method CountNeighbours(grid: seq<bool>, w: int, h: int, x: int, y: int) returns (neighbors: int)
    requires |grid| == w * h
    ensures neighbors == NeighbourCount(grid, w, h, x, y)
  {
    neighbors := 0;
    for ny := -1 to 2
      invariant neighbors == BlockCount(grid, w, h, x, y, ny)
    {
      for nx := -1 to 2
        invariant neighbors == BlockCount(grid, w, h, x, y, ny) + RowCount(grid, w, h, x, y, ny, nx)
      {
        if nx == 0 && ny == 0 {
          continue;
        }
        var checkX := x + nx;
        var checkY := y + ny;
        if checkX >= 0 && checkX < w && checkY >= 0 && checkY < h {
          RasterIndex(w, h, checkX, checkY);
          if grid[checkY * w + checkX] {
            neighbors := neighbors + 1;
          }
        }
      }
    }
  }

  /** The body of the pass for cell (x, y): its neighbours counted in the grid, and its entry in NextGrid set by the rules. */
  method UpdateCell(grid: seq<bool>, next: seq<bool>, w: int, h: int, birth: int, survival: int, x: int, y: int)
    returns (next': seq<bool>)
    requires |grid| == w * h && |next| == w * h && 0 <= x < w && 0 <= y < h
    requires 0 <= y * w + x < w * h && next[y * w + x] == grid[y * w + x]
    ensures next' == next[y * w + x := NextCell(grid[y * w + x], NeighbourCount(grid, w, h, x, y), birth, survival)]
  {
    var neighbors := CountNeighbours(grid, w, h, x, y);
    var currentIndex := y * w + x;
    RasterIndex(w, h, x, y);
    next' := next;
    if grid[currentIndex] && neighbors < survival {
      next' := next'[currentIndex := false];
    } else if !grid[currentIndex] && neighbors > birth {
      next' := next'[currentIndex := true];
    }
  }

  /** One iteration: NextGrid starts as a copy of the grid, each cell is updated from the unchanged grid, and the copy is returned. */
  method StepGrid(grid: seq<bool>, w: int, h: int, birth: int, survival: int) returns (next: seq<bool>)
    requires w >= 0 && h >= 0 && |grid| == w * h
    ensures next == Step(grid, w, h, birth, survival)
  {
    ghost var target := Step(grid, w, h, birth, survival);
    next := grid;
    for y := 0 to h
      invariant |next| == w * h
      invariant forall k :: 0 <= k < w * h ==> next[k] == if k < y * w then target[k] else grid[k]
    {
      for x := 0 to w
        invariant |next| == w * h
        invariant forall k :: 0 <= k < w * h ==> next[k] == if k < y * w + x then target[k] else grid[k]
      {
        StepAt(grid, w, h, birth, survival, x, y);
        next := UpdateCell(grid, next, w, h, birth, survival, x, y);
      }
      assert y * w + w == (y + 1) * w;
    }
    assert h * w == w * h;
  }

  /** One round of the iterations loop: the next grid, swapped in for the current one. */
  method Iteration(ghost start: seq<bool>, grid: seq<bool>, w: int, h: int, ghost i: nat, birth: int, survival: int)
    returns (next: seq<bool>)
    requires w >= 0 && h >= 0 && |start| == w * h
    requires grid == Iterate(start, w, h, i, birth, survival)
    ensures next == Iterate(start, w, h, i + 1, birth, survival)
  {
    IterateNext(start, w, h, i, birth, survival);
    next := StepGrid(grid, w, h, birth, survival);
  }

  /**
   * GenerateShapeWithCellularAutomata: a Width x Height shape whose grid is
   * the random fill after max(Iterations, 0) iterations of the automaton.
   */
  method GenerateShapeWithCellularAutomata(width: int, height: int, draws: nat -> real, iterations: int,
                                           birthThreshold: int, survivalThreshold: int)
    returns (shape: ShapeData)
    requires width >= 0 && height >= 0
    ensures shape.width == width && shape.height == height && |shape.grid| == width * height
    ensures shape.grid == Iterate(Fill(width, height, draws), width, height, if iterations < 0 then 0 else iterations,
                                  birthThreshold, survivalThreshold)
    ensures iterations <= 0 ==> shape.grid == Fill(width, height, draws)
  {
    var grid := FillGrid(width, height, draws);
    ghost var start := grid;
    ghost var n := if iterations < 0 then 0 else iterations;
    var i := 0;
    while i < iterations
      invariant 0 <= i <= n
      invariant grid == Iterate(start, width, height, i, birthThreshold, survivalThreshold)
    {
      grid := Iteration(start, grid, width, height, i, birthThreshold, survivalThreshold);
      i := i + 1;
      assert grid == Iterate(start, width, height, i, birthThreshold, survivalThreshold);
    }
    assert i == n;
    shape := ShapeData(width, height, grid);
  }
}
