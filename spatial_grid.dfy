/**
 * FSpatialGrid: the bounds are cut into cubic cells of one size; each cell
 * that holds anything is filed under a linear index and lists the bodies
 * whose bounding boxes reach it.
 */
module SpatialGrids {
  import opened UnrealMath
  import opened Vectors

  /** FBox. */
  datatype Box = Box(min: Vec3, max: Vec3)

  /** FIntVector: a cell coordinate. */
  datatype IntVec = IntVec(x: int, y: int, z: int)

  /** FCollisionBody, reduced to its identifier and its bounding box. */
  datatype Body = Body(id: nat, bounds: Box)

  type CellSize = r: real | r > 0.0 witness 1.0

  /** The stored list of a cell, empty when the cell is not filed. */
  function Cell(m: map<int, seq<Body>>, i: int): seq<Body>
  {
    if i in m then m[i] else []
  }

  /** The corners of the box Query uses: the position, widened by the radius on every axis. */
  function QueryBounds(position: Vec3, radius: real): (b: Box)
    ensures b.min.x == position.x - radius && b.max.x == position.x + radius
    ensures b.min.y == position.y - radius && b.max.y == position.y + radius
    ensures b.min.z == position.z - radius && b.max.z == position.z + radius
  {
    var extent := Vec3(radius, radius, radius);
    Box(position.Sub(extent), position.Add(extent))
  }

  // ---------------------------------------------------------------------
  // The order of the triple loops: X outermost, then Y, then Z.

  /** The cells (x, y, z) for z in [z0, z1). */
  function Pillar(x: int, y: int, z0: int, z1: int): seq<IntVec>
    decreases z1 - z0
  {
    if z1 <= z0 then [] else Pillar(x, y, z0, z1 - 1) + [IntVec(x, y, z1 - 1)]
  }

  /** The pillars of column x for y in [y0, y1). */
  function Slab(x: int, y0: int, y1: int, z0: int, z1: int): seq<IntVec>
    decreases y1 - y0
  {
    if y1 <= y0 then [] else Slab(x, y0, y1 - 1, z0, z1) + Pillar(x, y1 - 1, z0, z1)
  }

  /** The slabs for x in [x0, x1). */
  function Block(x0: int, x1: int, y0: int, y1: int, z0: int, z1: int): seq<IntVec>
    decreases x1 - x0
  {
    if x1 <= x0 then [] else Block(x0, x1 - 1, y0, y1, z0, z1) + Slab(x1 - 1, y0, y1, z0, z1)
  }

  /** Every coordinate from lo to hi inclusive, in loop order. */
  function Scan(lo: IntVec, hi: IntVec): seq<IntVec>
  {
    Block(lo.x, hi.x + 1, lo.y, hi.y + 1, lo.z, hi.z + 1)
  }

  predicate InRange(c: IntVec, lo: IntVec, hi: IntVec)
  {
    lo.x <= c.x <= hi.x && lo.y <= c.y <= hi.y && lo.z <= c.z <= hi.z
  }

  ghost predicate DistinctCoords(s: seq<IntVec>)
  {
    forall i, j :: 0 <= i < j < |s| ==> s[i] != s[j]
  }

  lemma {:induction false} PillarMembers(x: int, y: int, z0: int, z1: int)
    ensures forall c :: c in Pillar(x, y, z0, z1) <==> c.x == x && c.y == y && z0 <= c.z < z1
    ensures DistinctCoords(Pillar(x, y, z0, z1))
    decreases z1 - z0
  {
    if z0 < z1 {
      PillarMembers(x, y, z0, z1 - 1);
      DistinctAppend(Pillar(x, y, z0, z1 - 1), [IntVec(x, y, z1 - 1)]);
    }
  }

  lemma {:induction false} SlabMembers(x: int, y0: int, y1: int, z0: int, z1: int)
    ensures forall c :: c in Slab(x, y0, y1, z0, z1) <==> c.x == x && y0 <= c.y < y1 && z0 <= c.z < z1
    ensures DistinctCoords(Slab(x, y0, y1, z0, z1))
    decreases y1 - y0
  {
    if y0 < y1 {
      SlabMembers(x, y0, y1 - 1, z0, z1);
      PillarMembers(x, y1 - 1, z0, z1);
      DistinctAppend(Slab(x, y0, y1 - 1, z0, z1), Pillar(x, y1 - 1, z0, z1));
    }
  }

  lemma {:induction false} BlockMembers(x0: int, x1: int, y0: int, y1: int, z0: int, z1: int)
    ensures forall c :: c in Block(x0, x1, y0, y1, z0, z1) <==> x0 <= c.x < x1 && y0 <= c.y < y1 && z0 <= c.z < z1
    ensures DistinctCoords(Block(x0, x1, y0, y1, z0, z1))
    decreases x1 - x0
  {
    if x0 < x1 {
      BlockMembers(x0, x1 - 1, y0, y1, z0, z1);
      SlabMembers(x1 - 1, y0, y1, z0, z1);
      DistinctAppend(Block(x0, x1 - 1, y0, y1, z0, z1), Slab(x1 - 1, y0, y1, z0, z1));
    }
  }

  /** The scan visits exactly the coordinates of the range, each once. */
  lemma ScanMembers(lo: IntVec, hi: IntVec)
    ensures forall c :: c in Scan(lo, hi) <==> InRange(c, lo, hi)
    ensures DistinctCoords(Scan(lo, hi))
  {
    BlockMembers(lo.x, hi.x + 1, lo.y, hi.y + 1, lo.z, hi.z + 1);
  }

  /** The inner loop's step: one more cell of the pillar. */
  lemma PillarSnoc(before: seq<IntVec>, x: int, y: int, z0: int, z: int)
    requires z0 <= z
    ensures before + Pillar(x, y, z0, z + 1) == before + Pillar(x, y, z0, z) + [IntVec(x, y, z)]
  {
  }

  /** The middle loop's step: a finished pillar extends the slab. */
  lemma SlabSnoc(before: seq<IntVec>, x: int, y0: int, y: int, z0: int, z1: int)
    requires y0 <= y
    ensures before + Slab(x, y0, y + 1, z0, z1) == before + Slab(x, y0, y, z0, z1) + Pillar(x, y, z0, z1)
  {
  }

  /** The outer loop's step: a finished slab extends the block. */
  lemma BlockSnoc(x0: int, x: int, y0: int, y1: int, z0: int, z1: int)
    requires x0 <= x
    ensures Block(x0, x + 1, y0, y1, z0, z1) == Block(x0, x, y0, y1, z0, z1) + Slab(x, y0, y1, z0, z1)
  {
  }

  lemma DistinctAppend(a: seq<IntVec>, b: seq<IntVec>)
    requires DistinctCoords(a) && DistinctCoords(b)
    requires forall c :: c in a ==> c !in b
    ensures DistinctCoords(a + b)
  {
    forall i, j | 0 <= i < j < |a + b|
      ensures (a + b)[i] != (a + b)[j]
    {
      if j < |a| {
      } else if i < |a| {
        assert (a + b)[i] in a && (a + b)[j] == b[j - |a|];
      } else {
        assert (a + b)[i] == b[i - |a|] && (a + b)[j] == b[j - |a|];
      }
    }
  }

  // ---------------------------------------------------------------------
  // Deduplicating collection, as QueryBox does with AddedIDs.

  function Ids(out: seq<Body>): set<nat>
  {
    set b | b in out :: b.id
  }

  /** Each body of bs in order, added unless a body with its identifier is already there. */
  function AddAll(out: seq<Body>, bs: seq<Body>): seq<Body>
  {
    if bs == [] then out
    else
      var o := AddAll(out, bs[..|bs| - 1]);
      if bs[|bs| - 1].id in Ids(o) then o else o + [bs[|bs| - 1]]
  }

  ghost predicate DistinctIds(out: seq<Body>)
  {
    forall i, j :: 0 <= i < j < |out| ==> out[i].id != out[j].id
  }

  /** Adding keeps the identifiers distinct, only adds bodies of bs, and covers every identifier of bs. */
  lemma {:induction false} AddAllProps(out: seq<Body>, bs: seq<Body>)
    ensures DistinctIds(out) ==> DistinctIds(AddAll(out, bs))
    ensures out <= AddAll(out, bs)
    ensures forall b :: b in AddAll(out, bs) ==> b in out || b in bs
    ensures forall b :: b in bs ==> b.id in Ids(AddAll(out, bs))
    decreases |bs|
  {
    if bs != [] {
      var init := bs[..|bs| - 1];
      var last := bs[|bs| - 1];
      AddAllProps(out, init);
      var o := AddAll(out, init);
      assert forall b :: b in bs ==> b in init || b == last;
      if last.id !in Ids(o) {
        var o2 := o + [last];
        assert forall b :: b in o ==> b.id in Ids(o2);
        assert last.id in Ids(o2);
        if DistinctIds(o) {
          forall i, j | 0 <= i < j < |o2|
            ensures o2[i].id != o2[j].id
          {
            if j == |o| {
              assert o2[i] in o;
            }
          }
        }
        assert o2[..|out|] == o[..|out|];
      } else {
        assert last.id in Ids(o);
      }
    }
  }

  /** The loop over one cell in QueryBox: each body whose identifier is not yet taken joins the output. */
  method AddCell(out0: seq<Body>, added0: set<nat>, cell: seq<Body>) returns (out: seq<Body>, added: set<nat>)
    requires added0 == Ids(out0)
    ensures out == AddAll(out0, cell) && added == Ids(out)
  {
    out, added := out0, added0;
    for k := 0 to |cell|
      invariant out == AddAll(out0, cell[..k]) && added == Ids(out)
    {
      var b := cell[k];
      assert cell[..k + 1][..k] == cell[..k];
      if b.id !in added {
        out := out + [b];
        added := added + {b.id};
      }
    }
    assert cell[..|cell|] == cell;
  }

  // ---------------------------------------------------------------------
  // The grid.

  class SpatialGrid {
    const bounds: Box
    const cellSize: CellSize
    const dims: IntVec
    var grid: map<int, seq<Body>>

    /** Every filed cell lists at least one body. */
    ghost predicate Valid()
      reads this
    {
      forall i :: i in grid ==> grid[i] != []
    }

    /** The constructor: on each axis the fewest cells of the given size that cover the bounds. */
    constructor(inBounds: Box, inCellSize: CellSize)
      ensures bounds == inBounds && cellSize == inCellSize && grid == map[] && Valid()
      ensures dims == IntVec(CellsFor(inBounds.max.x - inBounds.min.x, inCellSize),
                             CellsFor(inBounds.max.y - inBounds.min.y, inCellSize),
                             CellsFor(inBounds.max.z - inBounds.min.z, inCellSize))
    {
      bounds := inBounds;
      cellSize := inCellSize;
      var size := inBounds.max.Sub(inBounds.min);
      dims := IntVec(CeilToInt(size.x / inCellSize), CeilToInt(size.y / inCellSize), CeilToInt(size.z / inCellSize));
      grid := map[];
    }

    /** Clear: no cell is filed any more. */
    method Clear()
      modifies this
      ensures grid == map[] && Valid()
    {
      grid := map[];
    }

    /** GridToIndex. */
    function Index(c: IntVec): (r: int)
      // a valid coordinate's index lies in [0, X·Y·Z)
      ensures ValidCoord(c) ==> 0 <= r < TotalCells()
    {
      assert c.z * dims.x * dims.y == dims.x * (dims.y * c.z);
      assert TotalCells() == dims.x * (dims.y * dims.z);
      assert ValidCoord(c) ==> 0 <= c.x + c.y * dims.x + c.z * dims.x * dims.y < TotalCells() by {
        if ValidCoord(c) {
          DigitRange(dims.y, c.y, c.z, dims.z);
          DigitRange(dims.x, c.x, c.y + dims.y * c.z, dims.y * dims.z);
        }
      }
      c.x + c.y * dims.x + c.z * dims.x * dims.y
    }

    /** IsValidGridCoord. */
    predicate ValidCoord(c: IntVec)
    {
      0 <= c.x < dims.x && 0 <= c.y < dims.y && 0 <= c.z < dims.z
    }

    function TotalCells(): int
    {
      dims.x * dims.y * dims.z
    }

    /** GridToIndex read as a number in mixed radix (X, Y). */
    lemma IndexForm(c: IntVec)
      ensures Index(c) == c.x + dims.x * (c.y + dims.y * c.z)
      ensures TotalCells() == dims.x * (dims.y * dims.z)
    {
      assert c.z * dims.x * dims.y == dims.x * (dims.y * c.z);
    }

    /** A valid coordinate's index lies in [0, X·Y·Z). */
    lemma IndexRange(c: IntVec)
      requires ValidCoord(c)
      ensures 0 <= Index(c) < TotalCells()
    {
      IndexForm(c);
      DigitRange(dims.y, c.y, c.z, dims.z);
      DigitRange(dims.x, c.x, c.y + dims.y * c.z, dims.y * dims.z);
    }

    /** Two valid coordinates with the same index are the same coordinate. */
    lemma IndexInjective(c1: IntVec, c2: IntVec)
      requires ValidCoord(c1) && ValidCoord(c2) && Index(c1) == Index(c2)
      ensures c1 == c2
    {
      IndexForm(c1);
      IndexForm(c2);
      Digits(dims.x, c1.x, c1.y + dims.y * c1.z, c2.x, c2.y + dims.y * c2.z);
      Digits(dims.y, c1.y, c1.z, c2.y, c2.z);
    }

    /** WorldToGrid: the cell holding a point, counted from the minimum corner of the bounds. */
    function WorldToGrid(p: Vec3): (c: IntVec)
      // the cell spans the point: c·size <= p - min < (c + 1)·size on every axis
      ensures c.x as real * cellSize <= p.x - bounds.min.x < (c.x + 1) as real * cellSize
      ensures c.y as real * cellSize <= p.y - bounds.min.y < (c.y + 1) as real * cellSize
      ensures c.z as real * cellSize <= p.z - bounds.min.z < (c.z + 1) as real * cellSize
    {
      FloorScaled(p.x - bounds.min.x, cellSize);
      FloorScaled(p.y - bounds.min.y, cellSize);
      FloorScaled(p.z - bounds.min.z, cellSize);
      var l := p.Sub(bounds.min);
      IntVec(FloorToInt(l.x / cellSize), FloorToInt(l.y / cellSize), FloorToInt(l.z / cellSize))
    }

    /** The cell WorldToGrid picks spans the point: c·size <= p - min < (c + 1)·size on every axis. */
    lemma WorldToGridCell(p: Vec3)
      ensures var c := WorldToGrid(p);
        c.x as real * cellSize <= p.x - bounds.min.x < (c.x + 1) as real * cellSize
        && c.y as real * cellSize <= p.y - bounds.min.y < (c.y + 1) as real * cellSize
        && c.z as real * cellSize <= p.z - bounds.min.z < (c.z + 1) as real * cellSize
    {
      FloorScaled(p.x - bounds.min.x, cellSize);
      FloorScaled(p.y - bounds.min.y, cellSize);
      FloorScaled(p.z - bounds.min.z, cellSize);
    }

    /** GetGridRange: both corners' cells, clamped into [0, dim - 1] on every axis. */
    function GridRange(box: Box): (r: (IntVec, IntVec))
      ensures dims.x >= 1 && dims.y >= 1 && dims.z >= 1 ==> ValidCoord(r.0) && ValidCoord(r.1)
    {
      var lo := WorldToGrid(box.min);
      var hi := WorldToGrid(box.max);
      (IntVec(ClampInt(lo.x, 0, dims.x - 1), ClampInt(lo.y, 0, dims.y - 1), ClampInt(lo.z, 0, dims.z - 1)),
       IntVec(ClampInt(hi.x, 0, dims.x - 1), ClampInt(hi.y, 0, dims.y - 1), ClampInt(hi.z, 0, dims.z - 1)))
    }

    /** In a grid with a cell per axis, the range of a box whose corners are in order has its corners in order too. */
    lemma GridRangeOrdered(box: Box)
      requires dims.x >= 1 && dims.y >= 1 && dims.z >= 1
      requires box.min.x <= box.max.x && box.min.y <= box.max.y && box.min.z <= box.max.z
      ensures var r := GridRange(box); r.0.x <= r.1.x && r.0.y <= r.1.y && r.0.z <= r.1.z
    {
      FloorMono(box.min.x - bounds.min.x, box.max.x - bounds.min.x, cellSize);
      FloorMono(box.min.y - bounds.min.y, box.max.y - bounds.min.y, cellSize);
      FloorMono(box.min.z - bounds.min.z, box.max.z - bounds.min.z, cellSize);
    }

    /** The grid after Insert has visited the coordinates cs: the body is appended to each valid one's cell. */
    function Deposit(m: map<int, seq<Body>>, cs: seq<IntVec>, body: Body): map<int, seq<Body>>
    {
      if cs == [] then m
      else
        var m' := Deposit(m, cs[..|cs| - 1], body);
        var c := cs[|cs| - 1];
        if ValidCoord(c) then m'[Index(c) := Cell(m', Index(c)) + [body]] else m'
    }

    /** Visiting distinct coordinates appends the body once to each valid visited cell and leaves the others alone. */
    lemma {:induction false} DepositCell(m: map<int, seq<Body>>, cs: seq<IntVec>, body: Body, c: IntVec)
      requires DistinctCoords(cs) && ValidCoord(c)
      ensures Cell(Deposit(m, cs, body), Index(c)) == Cell(m, Index(c)) + (if c in cs then [body] else [])
      decreases |cs|
    {
      if cs != [] {
        var init := cs[..|cs| - 1];
        var last := cs[|cs| - 1];
        assert DistinctCoords(init);
        DepositCell(m, init, body, c);
        assert c in cs <==> c in init || c == last;
        if c == last {
          assert c !in init;
        } else if ValidCoord(last) && Index(last) == Index(c) {
          IndexInjective(last, c);
        }
      }
    }

    /** Deposit only touches the indices of valid coordinates, and never files an empty cell. */
    lemma {:induction false} DepositKeys(m: map<int, seq<Body>>, cs: seq<IntVec>, body: Body, i: int)
      requires !(0 <= i < TotalCells())
      ensures Cell(Deposit(m, cs, body), i) == Cell(m, i)
      ensures (forall k :: k in m ==> m[k] != []) ==> forall k :: k in Deposit(m, cs, body) ==> Deposit(m, cs, body)[k] != []
      decreases |cs|
    {
      if cs != [] {
        DepositKeys(m, cs[..|cs| - 1], body, i);
        var c := cs[|cs| - 1];
        if ValidCoord(c) {
          IndexRange(c);
        }
      }
    }

    /** One more coordinate: Deposit takes one more step. */
    lemma DepositSnoc(m: map<int, seq<Body>>, cs: seq<IntVec>, c: IntVec, body: Body)
      ensures Deposit(m, cs + [c], body) ==
        var m' := Deposit(m, cs, body);
        if ValidCoord(c) then m'[Index(c) := Cell(m', Index(c)) + [body]] else m'
    {
      assert (cs + [c])[..|cs|] == cs;
    }

    /** What QueryBox has collected once it has visited the coordinates cs. */
    function Collect(m: map<int, seq<Body>>, cs: seq<IntVec>): seq<Body>
    {
      if cs == [] then []
      else
        var o := Collect(m, cs[..|cs| - 1]);
        var c := cs[|cs| - 1];
        if ValidCoord(c) then AddAll(o, Cell(m, Index(c))) else o
    }

    /**
     * The collection has distinct identifiers, holds only bodies of visited
     * valid cells, and has an identifier for every body of such a cell.
     */
    lemma {:induction false} CollectProps(m: map<int, seq<Body>>, cs: seq<IntVec>)
      ensures DistinctIds(Collect(m, cs))
      ensures forall b :: b in Collect(m, cs) ==> exists c :: c in cs && ValidCoord(c) && b in Cell(m, Index(c))
      ensures forall c, b :: c in cs && ValidCoord(c) && b in Cell(m, Index(c)) ==> b.id in Ids(Collect(m, cs))
      decreases |cs|
    {
      if cs != [] {
        var init := cs[..|cs| - 1];
        var c := cs[|cs| - 1];
        CollectProps(m, init);
        var o := Collect(m, init);
        assert forall d :: d in cs <==> d in init || d == c;
        if ValidCoord(c) {
          AddAllProps(o, Cell(m, Index(c)));
          IdsGrow(o, AddAll(o, Cell(m, Index(c))));
        }
      }
    }

    /**
     * Depositing a body over the scan of a range appends it to exactly the
     * valid cells of the range, touches no index outside [0, X·Y·Z), and
     * files no empty cell.
     */
    lemma DepositScan(m: map<int, seq<Body>>, lo: IntVec, hi: IntVec, body: Body)
      ensures forall c :: ValidCoord(c) ==>
        Cell(Deposit(m, Scan(lo, hi), body), Index(c)) == Cell(m, Index(c)) + (if InRange(c, lo, hi) then [body] else [])
      ensures forall i :: !(0 <= i < TotalCells()) ==> Cell(Deposit(m, Scan(lo, hi), body), i) == Cell(m, i)
      ensures (forall k :: k in m ==> m[k] != []) ==>
        forall k :: k in Deposit(m, Scan(lo, hi), body) ==> Deposit(m, Scan(lo, hi), body)[k] != []
    {
      var cs := Scan(lo, hi);
      ScanMembers(lo, hi);
      forall c | ValidCoord(c)
        ensures Cell(Deposit(m, cs, body), Index(c)) == Cell(m, Index(c)) + (if InRange(c, lo, hi) then [body] else [])
      {
        DepositCell(m, cs, body, c);
      }
      forall i | !(0 <= i < TotalCells())
        ensures Cell(Deposit(m, cs, body), i) == Cell(m, i)
      {
        DepositKeys(m, cs, body, i);
      }
      DepositKeys(m, cs, body, -1);
    }

    /** The grid is g0 with the body deposited over the coordinates done. */
    ghost predicate Filled(g0: map<int, seq<Body>>, done: seq<IntVec>, body: Body)
      reads this
    {
      grid == Deposit(g0, done, body)
    }

    /** The innermost step of Insert: a valid coordinate's cell gets the body, filed if it was not. */
    method FileAt(c: IntVec, body: Body, ghost g0: map<int, seq<Body>>, ghost done: seq<IntVec>)
      requires Filled(g0, done, body)
      modifies this
      ensures Filled(g0, done + [c], body)
    {
      if ValidCoord(c) {
        var index := Index(c);
        grid := grid[index := Cell(grid, index) + [body]];
      }
      DepositSnoc(g0, done, c, body);
    }

    /** Insert's Z loop over the pillar (x, y), from z0 to z1 inclusive. */
    method FilePillar(x: int, y: int, z0: int, z1: int, body: Body, ghost g0: map<int, seq<Body>>, ghost done: seq<IntVec>)
      requires Filled(g0, done, body)
      modifies this
      ensures Filled(g0, done + Pillar(x, y, z0, z1 + 1), body)
    {
      var z := z0;
      assert done + Pillar(x, y, z0, z) == done;
      while z <= z1
        invariant z0 <= z && (z <= z1 + 1 || z == z0)
        invariant Filled(g0, done + Pillar(x, y, z0, z), body)
        decreases z1 - z
      {
        FileAt(IntVec(x, y, z), body, g0, done + Pillar(x, y, z0, z));
        PillarSnoc(done, x, y, z0, z);
        z := z + 1;
      }
    }

    /** Insert's Y loop over the slab x, from lo to hi inclusive. */
    method FileSlab(x: int, lo: IntVec, hi: IntVec, body: Body, ghost g0: map<int, seq<Body>>, ghost done: seq<IntVec>)
      requires Filled(g0, done, body)
      modifies this
      ensures Filled(g0, done + Slab(x, lo.y, hi.y + 1, lo.z, hi.z + 1), body)
    {
      var y := lo.y;
      assert done + Slab(x, lo.y, y, lo.z, hi.z + 1) == done;
      while y <= hi.y
        invariant lo.y <= y && (y <= hi.y + 1 || y == lo.y)
        invariant Filled(g0, done + Slab(x, lo.y, y, lo.z, hi.z + 1), body)
        decreases hi.y - y
      {
        FilePillar(x, y, lo.z, hi.z, body, g0, done + Slab(x, lo.y, y, lo.z, hi.z + 1));
        DepositSlabSnoc(grid, g0, done, x, lo.y, y, lo.z, hi.z + 1, body);
        y := y + 1;
      }
    }

    /** FileSlab's step, on the grid alone: the pillar just filed extends the slab. */
    lemma DepositSlabSnoc(g: map<int, seq<Body>>, g0: map<int, seq<Body>>, done: seq<IntVec>,
                          x: int, y0: int, y: int, z0: int, z1: int, body: Body)
      requires y0 <= y && g == Deposit(g0, done + Slab(x, y0, y, z0, z1) + Pillar(x, y, z0, z1), body)
      ensures g == Deposit(g0, done + Slab(x, y0, y + 1, z0, z1), body)
    {
      SlabSnoc(done, x, y0, y, z0, z1);
    }

    /** QueryBox's X loop over the range lo..hi, starting from an empty output. */
    method CollectRange(lo: IntVec, hi: IntVec) returns (out: seq<Body>)
      ensures out == Collect(grid, Scan(lo, hi))
    {
      out := [];
      var added: set<nat> := {};
      var x := lo.x;
      while x <= hi.x
        invariant lo.x <= x && (x <= hi.x + 1 || x == lo.x)
        invariant Collected(out, added, Block(lo.x, x, lo.y, hi.y + 1, lo.z, hi.z + 1))
        decreases hi.x - x
      {
        out, added := CollectSlab(x, lo, hi, out, added, Block(lo.x, x, lo.y, hi.y + 1, lo.z, hi.z + 1));
        BlockSnoc(lo.x, x, lo.y, hi.y + 1, lo.z, hi.z + 1);
        x := x + 1;
      }
      assert Collected(out, added, Scan(lo, hi));
    }

    /** Whatever was visited, QueryBox's output never holds an identifier twice. */
    lemma CollectDistinct(m: map<int, seq<Body>>, cs: seq<IntVec>)
      ensures DistinctIds(Collect(m, cs))
    {
      CollectProps(m, cs);
    }

    /**
     * Insert: the body joins the list of every valid cell in its box's range,
     * in loop order; a cell it is the first to reach is filed.
     */
    method Insert(body: Body)
      modifies this
      ensures var r := GridRange(body.bounds); grid == Deposit(old(grid), Scan(r.0, r.1), body)
      ensures old(Valid()) ==> Valid()
    {
      var r := GridRange(body.bounds);
      ghost var g0 := grid;
      FileRange(r.0, r.1, body);
      if old(Valid()) {
        DepositKeys(g0, Scan(r.0, r.1), body, -1);
      }
    }

    /** Insert's X loop over the range lo..hi. */
    method FileRange(lo: IntVec, hi: IntVec, body: Body)
      modifies this
      ensures grid == Deposit(old(grid), Scan(lo, hi), body)
    {
      ghost var g0 := grid;
      var x := lo.x;
      while x <= hi.x
        invariant lo.x <= x && (x <= hi.x + 1 || x == lo.x)
        invariant Filled(g0, Block(lo.x, x, lo.y, hi.y + 1, lo.z, hi.z + 1), body)
        decreases hi.x - x
      {
        FileSlab(x, lo, hi, body, g0, Block(lo.x, x, lo.y, hi.y + 1, lo.z, hi.z + 1));
        BlockSnoc(lo.x, x, lo.y, hi.y + 1, lo.z, hi.z + 1);
        x := x + 1;
      }
      assert Filled(g0, Scan(lo, hi), body);
    }

    /** The output holds what QueryBox collects over the coordinates done, and added holds its identifiers. */
    ghost predicate Collected(out: seq<Body>, added: set<nat>, done: seq<IntVec>)
      reads this
    {
      out == Collect(grid, done) && added == Ids(out)
    }

    /** The innermost step of QueryBox: a valid coordinate's filed cell is added. */
    method CollectAt(c: IntVec, out0: seq<Body>, added0: set<nat>, ghost done: seq<IntVec>) returns (out: seq<Body>, added: set<nat>)
      requires Collected(out0, added0, done)
      ensures Collected(out, added, done + [c])
    {
      out, added := out0, added0;
      if ValidCoord(c) {
        var index := Index(c);
        if index in grid {
          out, added := AddCell(out, added, grid[index]);
        }
      }
      assert (done + [c])[..|done|] == done;
    }

    /** QueryBox's Z loop over the pillar (x, y), from z0 to z1 inclusive. */
    method CollectPillar(x: int, y: int, z0: int, z1: int, out0: seq<Body>, added0: set<nat>, ghost done: seq<IntVec>)
      returns (out: seq<Body>, added: set<nat>)
      requires Collected(out0, added0, done)
      ensures Collected(out, added, done + Pillar(x, y, z0, z1 + 1))
    {
      out, added := out0, added0;
      var z := z0;
      assert done + Pillar(x, y, z0, z) == done;
      while z <= z1
        invariant z0 <= z && (z <= z1 + 1 || z == z0)
        invariant Collected(out, added, done + Pillar(x, y, z0, z))
        decreases z1 - z
      {
        out, added := CollectAt(IntVec(x, y, z), out, added, done + Pillar(x, y, z0, z));
        PillarSnoc(done, x, y, z0, z);
        z := z + 1;
      }
    }

    /** QueryBox's Y loop over the slab x, from lo to hi inclusive. */
    method CollectSlab(x: int, lo: IntVec, hi: IntVec, out0: seq<Body>, added0: set<nat>, ghost done: seq<IntVec>)
      returns (out: seq<Body>, added: set<nat>)
      requires Collected(out0, added0, done)
      ensures Collected(out, added, done + Slab(x, lo.y, hi.y + 1, lo.z, hi.z + 1))
    {
      out, added := out0, added0;
      var y := lo.y;
      assert done + Slab(x, lo.y, y, lo.z, hi.z + 1) == done;
      while y <= hi.y
        invariant lo.y <= y && (y <= hi.y + 1 || y == lo.y)
        invariant Collected(out, added, done + Slab(x, lo.y, y, lo.z, hi.z + 1))
        decreases hi.y - y
      {
        out, added := CollectPillar(x, y, lo.z, hi.z, out, added, done + Slab(x, lo.y, y, lo.z, hi.z + 1));
        SlabSnoc(done, x, lo.y, y, lo.z, hi.z + 1);
        y := y + 1;
      }
    }

    /**
     * What a query over the range lo..hi collects: distinct identifiers, only
     * bodies of valid cells in the range, and every such body's identifier.
     */
    lemma CollectScan(m: map<int, seq<Body>>, lo: IntVec, hi: IntVec)
      ensures DistinctIds(Collect(m, Scan(lo, hi)))
      ensures forall b :: b in Collect(m, Scan(lo, hi)) ==> exists c :: InRange(c, lo, hi) && ValidCoord(c) && b in Cell(m, Index(c))
      ensures forall c, b :: InRange(c, lo, hi) && ValidCoord(c) && b in Cell(m, Index(c)) ==> b.id in Ids(Collect(m, Scan(lo, hi)))
    {
      CollectProps(m, Scan(lo, hi));
      ScanMembers(lo, hi);
    }

    /**
     * QueryBox: every body of the valid cells in the box's range, in loop
     * order, skipping any whose identifier was already taken; the output
     * starts empty.
     */
    method QueryBox(box: Box) returns (out: seq<Body>)
      ensures var r := GridRange(box); out == Collect(grid, Scan(r.0, r.1))
      ensures DistinctIds(out)
    {
      var r := GridRange(box);
      out := CollectRange(r.0, r.1);
      CollectDistinct(grid, Scan(r.0, r.1));
    }

    /** Query: QueryBox over the box reaching radius from the position on every axis. */
    method Query(position: Vec3, radius: real) returns (out: seq<Body>)
      ensures var r := GridRange(QueryBounds(position, radius)); out == Collect(grid, Scan(r.0, r.1))
      ensures DistinctIds(out)
    {
      var extent := Vec3(radius, radius, radius);
      out := QueryBox(Box(position.Sub(extent), position.Add(extent)));
    }

    /**
     * A body inserted over a non-empty box into a grid with at least one
     * cell per axis is found again, by identifier, by a query over the same
     * box, whatever the grid held before.
     */
    lemma InsertThenQuery(m: map<int, seq<Body>>, body: Body)
      requires dims.x >= 1 && dims.y >= 1 && dims.z >= 1
      requires body.bounds.min.x <= body.bounds.max.x && body.bounds.min.y <= body.bounds.max.y
        && body.bounds.min.z <= body.bounds.max.z
      ensures var r := GridRange(body.bounds);
        body.id in Ids(Collect(Deposit(m, Scan(r.0, r.1), body), Scan(r.0, r.1)))
    {
      var r := GridRange(body.bounds);
      var cs := Scan(r.0, r.1);
      GridRangeOrdered(body.bounds);
      ScanMembers(r.0, r.1);
      assert InRange(r.0, r.0, r.1);
      DepositCell(m, cs, body, r.0);
      var m' := Deposit(m, cs, body);
      assert body in Cell(m', Index(r.0));
      CollectProps(m', cs);
    }

    /** After Clear (or on a new grid) every query finds nothing. */
    lemma {:induction false} ClearedCollectsNothing(cs: seq<IntVec>)
      ensures Collect(map[], cs) == []
      decreases |cs|
    {
      if cs != [] {
        ClearedCollectsNothing(cs[..|cs| - 1]);
      }
    }

    /**
     * GetStatistics: the total cell count X·Y·Z, the number of filed cells,
     * the largest list, and the mean list length over the filed cells (0 when
     * none is filed), which lies between 1 and the largest.
     */
    method GetStatistics() returns (total: int, occupied: int, maxPerCell: int, avgPerCell: real)
      requires Valid()
      ensures total == TotalCells() && occupied == |grid.Keys|
      ensures forall i :: i in grid ==> |grid[i]| <= maxPerCell
      ensures occupied == 0 ==> maxPerCell == 0 && avgPerCell == 0.0
      ensures occupied > 0 ==> (exists i :: i in grid && |grid[i]| == maxPerCell) && 1.0 <= avgPerCell <= maxPerCell as real
      // the mean is TotalBodies / OccupiedCells, the filed lists' lengths summed
      ensures occupied > 0 ==> avgPerCell == BodiesIn(grid, grid.Keys) as real / occupied as real
    {
      total := dims.x * dims.y * dims.z;
      occupied := |grid.Keys|;
      maxPerCell := 0;
      avgPerCell := 0.0;
      if occupied > 0 {
        var bodies := 0;
        var todo := grid.Keys;
        var seen := 0;
        while todo != {}
          invariant todo <= grid.Keys && seen + |todo| == occupied
          invariant forall i :: i in grid && i !in todo ==> |grid[i]| <= maxPerCell
          invariant seen > 0 ==> exists i :: i in grid && i !in todo && |grid[i]| == maxPerCell
          invariant seen == 0 ==> maxPerCell == 0
          invariant 0 <= maxPerCell && seen <= bodies <= maxPerCell * seen
          invariant bodies == BodiesIn(grid, grid.Keys - todo)
          decreases todo
        {
          assert exists k :: k in todo by {
            if forall k :: k !in todo {
              assert false;
            }
          }
          var i :| i in todo;
          var n := |grid[i]|;
          StatStep(bodies, seen, maxPerCell, n);
          BodiesInRemove(grid, grid.Keys - (todo - {i}), i);
          assert grid.Keys - (todo - {i}) - {i} == grid.Keys - todo;
          bodies := bodies + n;
          maxPerCell := if maxPerCell < n then n else maxPerCell;
          todo := todo - {i};
          seen := seen + 1;
        }
        assert grid.Keys - todo == grid.Keys;
        avgPerCell := bodies as real / occupied as real;
        AverageBounds(bodies, occupied, maxPerCell);
      }
    }
  }

  /** The number of bodies filed in the cells of keys, one per list entry. */
  ghost function BodiesIn(m: map<int, seq<Body>>, keys: set<int>): int
    requires keys <= m.Keys
    decreases keys
  {
    if keys == {} then 0
    else
      assert exists k :: k in keys by {
        if forall k :: k !in keys {
          assert false;
        }
      }
      var k :| k in keys;
      |m[k]| + BodiesIn(m, keys - {k})
  }

  /** The sum does not depend on which cell is taken first. */
  lemma {:induction false} BodiesInRemove(m: map<int, seq<Body>>, keys: set<int>, i: int)
    requires keys <= m.Keys && i in keys
    ensures BodiesIn(m, keys) == |m[i]| + BodiesIn(m, keys - {i})
    decreases keys
  {
    var k :| k in keys && BodiesIn(m, keys) == |m[k]| + BodiesIn(m, keys - {k});
    if k != i {
      BodiesInRemove(m, keys - {k}, i);
      BodiesInRemove(m, keys - {i}, k);
      assert keys - {k} - {i} == keys - {i} - {k};
    }
  }

  /** The fewest cells of the given size that cover a length. */
  function CellsFor(length: real, size: CellSize): (n: int)
    ensures (n - 1) as real * size < length <= n as real * size
  {
    var n := CeilToInt(length / size);
    CeilScaled(length, size);
    n
  }

  // ---------------------------------------------------------------------
  // Arithmetic.

  lemma MulMono(a: int, b: int, k: int)
    requires a <= b && 0 <= k
    ensures a * k <= b * k && k * a <= k * b
  {
  }

  /** A digit and a carry below M make a number below X·M. */
  lemma DigitRange(X: int, a: int, m: int, M: int)
    requires 0 <= a < X && 0 <= m < M
    ensures 0 <= a + X * m < X * M
  {
    MulMono(0, m, X);
    MulMono(m, M - 1, X);
  }

  /** Two digits and two carries in base X agree when their values do. */
  lemma Digits(X: int, a1: int, m1: int, a2: int, m2: int)
    requires 0 <= a1 < X && 0 <= a2 < X && a1 + X * m1 == a2 + X * m2
    ensures a1 == a2 && m1 == m2
  {
    if m1 < m2 {
      MulMono(m1 + 1, m2, X);
    } else if m2 < m1 {
      MulMono(m2 + 1, m1, X);
    }
  }

  lemma FloorScaled(l: real, s: CellSize)
    ensures FloorToInt(l / s) as real * s <= l < (FloorToInt(l / s) + 1) as real * s
  {
    var q := l / s;
    var f := FloorToInt(q);
    assert q * s == l;
    MulRealMono(f as real, q, s);
    MulRealStrict(q, (f + 1) as real, s);
    assert l < (f + 1) as real * s;
  }

  lemma CeilScaled(l: real, s: CellSize)
    ensures (CeilToInt(l / s) - 1) as real * s < l <= CeilToInt(l / s) as real * s
  {
    var q := l / s;
    var c := CeilToInt(q);
    assert q * s == l;
    MulRealStrict((c - 1) as real, q, s);
    MulRealMono(q, c as real, s);
  }

  lemma FloorMono(a: real, b: real, s: CellSize)
    ensures a <= b ==> FloorToInt(a / s) <= FloorToInt(b / s)
  {
    if a <= b {
      MulRealMono(a, b, 1.0 / s);
      assert a / s == a * (1.0 / s) && b / s == b * (1.0 / s);
    }
  }

  lemma MulRealMono(a: real, b: real, s: real)
    requires a <= b && s > 0.0
    ensures a * s <= b * s
  {
  }

  lemma MulRealStrict(a: real, b: real, s: real)
    requires a < b && s > 0.0
    ensures a * s < b * s
  {
  }

  lemma IdsGrow(a: seq<Body>, b: seq<Body>)
    requires a <= b
    ensures Ids(a) <= Ids(b)
  {
    assert forall x :: x in a ==> x in b;
  }

  /** One more count n >= 1 keeps the running sum between the number of counts and the largest times that number. */
  lemma StatStep(sum: int, seen: int, mx: int, n: int)
    requires 0 <= seen <= sum <= mx * seen && 0 <= mx && 1 <= n
    ensures seen + 1 <= sum + n <= (if mx < n then n else mx) * (seen + 1)
  {
    MulMono(mx, if mx < n then n else mx, seen);
  }

  /** A sum of n counts, each at least 1 and at most mx, has a mean between 1 and mx. */
  lemma AverageBounds(sum: int, n: int, mx: int)
    requires 0 < n <= sum <= mx * n
    ensures 1.0 <= sum as real / n as real <= mx as real
  {
    assert (mx * n) as real == mx as real * n as real;
    MulRealMono(1.0, sum as real / n as real, n as real);
    assert sum as real / n as real * n as real == sum as real;
  }
}
