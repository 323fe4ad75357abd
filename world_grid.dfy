/**
 * The world grid as the subsystem stores it (rows of FCell indexed [Y][X]),
 * coordinate validity, the 8-neighbourhood, and the sums the layer proofs
 * talk about.
 */
module WorldGrid {
  import opened WorldMorphingTypes

  datatype Coord = Coord(x: int, y: int)

  /** TArray<TArray<FCell>> Grid, row-major: Grid[Y][X]. */
  type Grid = seq<seq<Cell>>

  /** A per-cell buffer such as EnergyChanges, indexed [Y][X]. */
  type Field = seq<seq<real>>

  /** IsValidCoord: 0 <= X < Width and 0 <= Y < Height. */
  predicate IsValidCoord(w: int, h: int, x: int, y: int)
  {
    0 <= x < w && 0 <= y < h
  }

  /** A valid cell's row-major index Y * Width + X lies in [0, Width * Height). */
  lemma ValidCoordRowMajor(w: int, h: int, x: int, y: int)
    requires IsValidCoord(w, h, x, y)
    ensures 0 <= y * w + x < w * h
  {
    assert y * w <= (h - 1) * w by {
      assert (h - 1 - y) * w >= 0;
    }
  }

  /** Raster order: (yy, xx) comes before (y, x). */
  predicate Before(yy: int, xx: int, y: int, x: int)
  {
    yy < y || (yy == y && xx < x)
  }

  /** Height rows of Width cells each. */
  predicate Shaped(g: Grid, w: int, h: int)
  {
    0 <= w && |g| == h && forall y :: 0 <= y < h ==> |g[y]| == w
  }

  /** Every cell's own X and Y fields name its place in the grid. */
  predicate Labelled(g: Grid)
  {
    forall y, x :: 0 <= y < |g| && 0 <= x < |g[y]| ==> g[y][x].x == x && g[y][x].y == y
  }

  /** Cells outside the world hold no mantle energy and no crystal. */
  predicate Clean(g: Grid)
  {
    forall y, x :: 0 <= y < |g| && 0 <= x < |g[y]| && !g[y][x].inWorld ==>
      g[y][x].mantleEnergy == 0.0 && g[y][x].crystalState == Empty
  }

  /** Every cell's mantle energy is non-negative. */
  predicate MantleNonNegative(g: Grid)
  {
    forall y, x :: 0 <= y < |g| && 0 <= x < |g[y]| ==> g[y][x].mantleEnergy >= 0.0
  }

  /** Squared distance of a cell from the grid centre (Width/2, Height/2). */
  function CentreDistSq(w: int, h: int, x: int, y: int): (d: real)
    ensures d >= 0.0
  {
    var dx := x as real - w as real / 2.0;
    var dy := y as real - h as real / 2.0;
    dx * dx + dy * dy
  }

  predicate FieldShaped(f: Field, w: int, h: int)
  {
    0 <= w && |f| == h && forall y :: 0 <= y < h ==> |f[y]| == w
  }

  /** Replace the cell at (x, y). */
  function Put(g: Grid, x: int, y: int, c: Cell): (r: Grid)
    requires 0 <= y < |g| && 0 <= x < |g[y]|
    ensures |r| == |g| && (forall j :: 0 <= j < |g| ==> |r[j]| == |g[j]|)
    ensures r[y][x] == c
    ensures forall j, i :: 0 <= j < |g| && 0 <= i < |g[j]| && (j != y || i != x) ==> r[j][i] == g[j][i]
  {
    g[y := g[y][x := c]]
  }

  /** A buffer of zeros (the SetNum-and-zero loops that open each layer). */
  function Zeros(w: nat, h: nat): (f: Field)
    ensures FieldShaped(f, w, h)
    ensures forall y, x :: 0 <= y < h && 0 <= x < w ==> f[y][x] == 0.0
  {
    seq(h, _ => seq(w, _ => 0.0))
  }

  /** Buffer[y][x] += d. */
  function AddAt(f: Field, x: int, y: int, d: real): (r: Field)
    requires 0 <= y < |f| && 0 <= x < |f[y]|
    ensures |r| == |f| && (forall j :: 0 <= j < |f| ==> |r[j]| == |f[j]|)
    ensures r[y][x] == f[y][x] + d
    ensures forall j, i :: 0 <= j < |f| && 0 <= i < |f[j]| && (j != y || i != x) ==> r[j][i] == f[j][i]
  {
    f[y := f[y][x := f[y][x] + d]]
  }

  // ---------------------------------------------------------------------
  // The 8-neighbourhood, in the order GetNeighbors produces it: DY from -1
  // to 1 in the outer loop, DX from -1 to 1 in the inner loop, skipping the
  // cell itself and every offset that falls off the grid.

  /** The k-th of the nine scanned positions (k = 4 is the cell itself). */
  function ScanPos(x: int, y: int, k: int): Coord
  {
    Coord(x + k % 3 - 1, y + k / 3 - 1)
  }

  /** The neighbours found among the first k scanned positions. */
  function Scan(w: int, h: int, x: int, y: int, k: nat): seq<Coord>
    requires k <= 9
  {
    if k == 0 then []
    else
      var c := ScanPos(x, y, k - 1);
      Scan(w, h, x, y, k - 1) + (if k - 1 != 4 && IsValidCoord(w, h, c.x, c.y) then [c] else [])
  }

  /** GetNeighbors(X, Y), as the coordinates of the cells it points to. */
  function Neighbors(w: int, h: int, x: int, y: int): seq<Coord>
  {
    Scan(w, h, x, y, 9)
  }

  /** Two distinct cells touching by an edge or a corner. */
  predicate Adjacent(a: Coord, b: Coord)
  {
    a != b && -1 <= a.x - b.x <= 1 && -1 <= a.y - b.y <= 1
  }

  lemma {:induction false} ScanMembers(w: int, h: int, x: int, y: int, k: nat, c: Coord)
    requires k <= 9
    ensures c in Scan(w, h, x, y, k) <==>
      exists j :: 0 <= j < k && j != 4 && c == ScanPos(x, y, j) && IsValidCoord(w, h, c.x, c.y)
  {
    if k > 0 {
      ScanMembers(w, h, x, y, k - 1, c);
    }
  }

  /** The neighbours are exactly the valid cells adjacent to (x, y). */
  lemma NeighborsExactly(w: int, h: int, x: int, y: int, c: Coord)
    ensures c in Neighbors(w, h, x, y) <==> IsValidCoord(w, h, c.x, c.y) && Adjacent(c, Coord(x, y))
  {
    ScanMembers(w, h, x, y, 9, c);
    if IsValidCoord(w, h, c.x, c.y) && Adjacent(c, Coord(x, y)) {
      var j := (c.y - y + 1) * 3 + (c.x - x + 1);
      assert 0 <= j < 9 && j != 4 && c == ScanPos(x, y, j);
    }
  }

  lemma {:induction false} ScanDistinctSmall(w: int, h: int, x: int, y: int, k: nat)
    requires k <= 9
    ensures |Scan(w, h, x, y, k)| <= k
    ensures forall i, j :: 0 <= i < j < |Scan(w, h, x, y, k)| ==> Scan(w, h, x, y, k)[i] != Scan(w, h, x, y, k)[j]
  {
    if k > 0 {
      ScanDistinctSmall(w, h, x, y, k - 1);
      var c := ScanPos(x, y, k - 1);
      if c in Scan(w, h, x, y, k - 1) {
        ScanMembers(w, h, x, y, k - 1, c);
      }
    }
  }

  /** At most eight neighbours, none of them listed twice. */
  lemma NeighborsDistinct(w: int, h: int, x: int, y: int)
    ensures |Neighbors(w, h, x, y)| <= 8
    ensures forall i, j :: 0 <= i < j < |Neighbors(w, h, x, y)| ==> Neighbors(w, h, x, y)[i] != Neighbors(w, h, x, y)[j]
  {
    ScanDistinctSmall(w, h, x, y, 9);
    ScanSkipsCentre(w, h, x, y, 9);
  }

  lemma {:induction false} ScanSkipsCentre(w: int, h: int, x: int, y: int, k: nat)
    requires 5 <= k <= 9
    ensures |Scan(w, h, x, y, k)| <= k - 1
  {
    if k == 5 {
      ScanDistinctSmall(w, h, x, y, 4);
    } else {
      ScanSkipsCentre(w, h, x, y, k - 1);
    }
  }

  /** Every neighbour is a valid coordinate next to (x, y). */
  lemma NeighborsValid(w: int, h: int, x: int, y: int)
    ensures forall c :: c in Neighbors(w, h, x, y) ==> IsValidCoord(w, h, c.x, c.y) && Adjacent(c, Coord(x, y))
  {
    forall c | c in Neighbors(w, h, x, y)
      ensures IsValidCoord(w, h, c.x, c.y) && Adjacent(c, Coord(x, y))
    {
      NeighborsExactly(w, h, x, y, c);
    }
  }

  /** GetNeighbors' double loop over DY and DX. */
  method GetNeighbors(w: int, h: int, x: int, y: int) returns (ns: seq<Coord>)
    ensures ns == Neighbors(w, h, x, y)
    ensures forall c :: c in ns <==> IsValidCoord(w, h, c.x, c.y) && Adjacent(c, Coord(x, y))
  {
    ns := [];
    var dy := -1;
    while dy <= 1
      invariant -1 <= dy <= 2
      invariant ns == Scan(w, h, x, y, (dy + 1) * 3)
    {
      ns := ScanRow(w, h, x, y, dy, ns);
      dy := dy + 1;
    }
    forall c ensures c in ns <==> IsValidCoord(w, h, c.x, c.y) && Adjacent(c, Coord(x, y)) {
      NeighborsExactly(w, h, x, y, c);
    }
  }

  /** The inner loop over DX for one row DY. */
  method ScanRow(w: int, h: int, x: int, y: int, dy: int, ns0: seq<Coord>) returns (ns: seq<Coord>)
    requires -1 <= dy <= 1 && ns0 == Scan(w, h, x, y, (dy + 1) * 3)
    ensures ns == Scan(w, h, x, y, (dy + 1) * 3 + 3)
  {
    ns := ns0;
    var dx := -1;
    while dx <= 1
      invariant -1 <= dx <= 2
      invariant ns == Scan(w, h, x, y, (dy + 1) * 3 + dx + 1)
    {
      ScanAt(w, h, x, y, dx, dy);
      if !(dx == 0 && dy == 0) {
        var nx, ny := x + dx, y + dy;
        if IsValidCoord(w, h, nx, ny) {
          ns := ns + [Coord(nx, ny)];
        }
      }
      dx := dx + 1;
    }
  }

  /** Position k = (DY + 1) * 3 + DX + 1 of the scan is the offset (DX, DY), and the centre is k = 4. */
  lemma ScanAt(w: int, h: int, x: int, y: int, dx: int, dy: int)
    requires -1 <= dx <= 1 && -1 <= dy <= 1
    ensures var k := (dy + 1) * 3 + dx + 1;
      0 <= k < 9 && ScanPos(x, y, k) == Coord(x + dx, y + dy) && (k == 4 <==> dx == 0 && dy == 0)
      && Scan(w, h, x, y, k + 1)
         == Scan(w, h, x, y, k) + (if k != 4 && IsValidCoord(w, h, x + dx, y + dy) then [Coord(x + dx, y + dy)] else [])
  {
    var k := (dy + 1) * 3 + dx + 1;
    assert k % 3 == dx + 1 && k / 3 == dy + 1;
  }

  /** Two shaped grids that agree cell by cell are the same grid. */
  lemma SameGrid(a: Grid, b: Grid, w: int, h: int)
    requires Shaped(a, w, h) && Shaped(b, w, h)
    requires forall y, x :: 0 <= y < h && 0 <= x < w ==> a[y][x] == b[y][x]
    ensures a == b
  {
    forall y | 0 <= y < h
      ensures a[y] == b[y]
    {
      assert forall x :: 0 <= x < w ==> a[y][x] == b[y][x];
    }
  }

  /** The neighbours of a cell in a shaped grid index into the grid. */
  lemma NeighborsInGrid(g: Grid, w: int, h: int, x: int, y: int)
    requires Shaped(g, w, h)
    ensures forall c :: c in Neighbors(w, h, x, y) ==> 0 <= c.y < |g| && 0 <= c.x < |g[c.y]|
  {
    NeighborsValid(w, h, x, y);
  }

  /** The cells among ns that are part of the world (the ExistingNeighbors filters). */
  function InWorldAmong(g: Grid, ns: seq<Coord>): (r: seq<Coord>)
    requires forall c :: c in ns ==> 0 <= c.y < |g| && 0 <= c.x < |g[c.y]|
    ensures forall c :: c in r <==> c in ns && g[c.y][c.x].inWorld
    ensures |r| <= |ns|
  {
    if ns == [] then []
    else (if g[ns[0].y][ns[0].x].inWorld then [ns[0]] else []) + InWorldAmong(g, ns[1..])
  }

  /** The filter depends on existence alone. */
  lemma {:induction false} InWorldAmongSame(a: Grid, b: Grid, ns: seq<Coord>)
    requires forall c :: c in ns ==> 0 <= c.y < |a| && 0 <= c.x < |a[c.y]| && 0 <= c.y < |b| && 0 <= c.x < |b[c.y]|
    requires forall c :: c in ns ==> a[c.y][c.x].inWorld == b[c.y][c.x].inWorld
    ensures InWorldAmong(a, ns) == InWorldAmong(b, ns)
  {
    if ns != [] {
      InWorldAmongSame(a, b, ns[1..]);
    }
  }

  /** Some cell among ns is outside the world (the IsEdge scans). */
  predicate SomeOutside(g: Grid, ns: seq<Coord>)
    requires forall c :: c in ns ==> 0 <= c.y < |g| && 0 <= c.x < |g[c.y]|
  {
    exists c :: c in ns && !g[c.y][c.x].inWorld
  }

  // ---------------------------------------------------------------------
  // Sums.

  function Sum(s: seq<real>): real
  {
    if s == [] then 0.0 else s[0] + Sum(s[1..])
  }

  /** Changing one entry changes the sum by the difference. */
  lemma {:induction false} SumUpdate(s: seq<real>, i: int, v: real)
    requires 0 <= i < |s|
    ensures Sum(s[i := v]) == Sum(s) - s[i] + v
  {
    if i > 0 {
      SumUpdate(s[1..], i - 1, v);
      assert s[i := v][1..] == s[1..][i - 1 := v];
    }
  }

  /** The total of a buffer. */
  function FieldSum(f: Field): real
  {
    Sum(seq(|f|, y requires 0 <= y < |f| => Sum(f[y])))
  }

  /** Adding d to one entry of a buffer adds d to its total. */
  lemma FieldSumAddAt(f: Field, x: int, y: int, d: real)
    requires 0 <= y < |f| && 0 <= x < |f[y]|
    ensures FieldSum(AddAt(f, x, y, d)) == FieldSum(f) + d
  {
    var rows := seq(|f|, j requires 0 <= j < |f| => Sum(f[j]));
    var f' := AddAt(f, x, y, d);
    SumUpdate(f[y], x, f[y][x] + d);
    assert f'[y] == f[y][x := f[y][x] + d];
    assert seq(|f'|, j requires 0 <= j < |f'| => Sum(f'[j])) == rows[y := Sum(f'[y])];
    SumUpdate(rows, y, Sum(f'[y]));
  }

  /** The mantle energy of one row. */
  function RowMantle(row: seq<Cell>): seq<real>
  {
    seq(|row|, i requires 0 <= i < |row| => row[i].mantleEnergy)
  }

  /** The mantle energy held by the whole grid, in and out of the world. */
  function TotalMantle(g: Grid): real
  {
    Sum(seq(|g|, y requires 0 <= y < |g| => Sum(RowMantle(g[y]))))
  }

  /** Replacing one cell changes the total mantle energy by the difference. */
  lemma TotalMantlePut(g: Grid, x: int, y: int, c: Cell)
    requires 0 <= y < |g| && 0 <= x < |g[y]|
    ensures TotalMantle(Put(g, x, y, c)) == TotalMantle(g) - g[y][x].mantleEnergy + c.mantleEnergy
  {
    var rows := seq(|g|, j requires 0 <= j < |g| => Sum(RowMantle(g[j])));
    var g' := Put(g, x, y, c);
    assert RowMantle(g'[y]) == RowMantle(g[y])[x := c.mantleEnergy];
    SumUpdate(RowMantle(g[y]), x, c.mantleEnergy);
    assert seq(|g'|, j requires 0 <= j < |g'| => Sum(RowMantle(g'[j]))) == rows[y := Sum(RowMantle(g'[y]))];
    SumUpdate(rows, y, Sum(RowMantle(g'[y])));
  }
}
