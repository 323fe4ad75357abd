/** The breadth-first distance-to-edge field (DistToEdge) of UpdateMantleLayer. */
module EdgeDistance {
  import opened UnrealMath
  import opened WorldMorphingTypes
  import opened WorldGrid

  // ---------------------------------------------------------------------
  // 3. Distance to the edge, breadth first.

  /** MAX_int32, the "not reached" mark of DistToEdge. */
  const MaxInt32: int := 0x7FFF_FFFF

  type IntField = seq<seq<int>>

  predicate IntShaped(f: IntField, w: int, h: int)
  {
    0 <= w && |f| == h && forall y :: 0 <= y < h ==> |f[y]| == w
  }

  /** A BFS seed: an in-world cell with a neighbour outside the world, or on the rim of the map. */
  predicate IsEdgeSeed(g: Grid, w: int, h: int, x: int, y: int)
    requires Shaped(g, w, h) && IsValidCoord(w, h, x, y)
  {
    NeighborsInGrid(g, w, h, x, y);
    g[y][x].inWorld && (SomeOutside(g, Neighbors(w, h, x, y)) || |Neighbors(w, h, x, y)| < 8)
  }

  /** The furthest distance the search expands from: EdgeGenerationOffset + EdgeGenerationWidth + 1. */
  function MaxSearchDist(p: SimulationParams): int
  {
    p.edgeGenerationOffset + p.edgeGenerationWidth + 1
  }

  datatype QueueEntry = QueueEntry(x: int, y: int, d: int)

  function SetInt(f: IntField, x: int, y: int, v: int): (r: IntField)
    requires 0 <= y < |f| && 0 <= x < |f[y]|
    ensures |r| == |f| && (forall j :: 0 <= j < |f| ==> |r[j]| == |f[j]|)
    ensures r[y][x] == v
    ensures forall j, i :: 0 <= j < |f| && 0 <= i < |f[j]| && (j != y || i != x) ==> r[j][i] == f[j][i]
  {
    f[y := f[y][x := v]]
  }

  /** All coordinates of a w-by-h grid. */
  function AllCoords(w: int, h: int): set<Coord>
  {
    set y, x | 0 <= y < h && 0 <= x < w :: Coord(x, y)
  }

  /** The cells still at MAX_int32. */
  function Unreached(f: IntField, w: int, h: int): set<Coord>
    requires IntShaped(f, w, h)
  {
    set c | c in AllCoords(w, h) && 0 <= c.y < h && 0 <= c.x < w && f[c.y][c.x] == MaxInt32
  }

  /** Reaching one more cell removes it from the unreached set and nothing is added. */
  lemma UnreachedShrinks(prev: IntField, f: IntField, w: int, h: int, n: Coord, v: int)
    requires IntShaped(prev, w, h) && IsValidCoord(w, h, n.x, n.y) && prev[n.y][n.x] == MaxInt32 && v != MaxInt32
    requires f == SetInt(prev, n.x, n.y, v)
    ensures IntShaped(f, w, h) && Unreached(f, w, h) < Unreached(prev, w, h)
  {
    assert n in AllCoords(w, h);
    assert n in Unreached(prev, w, h) && n !in Unreached(f, w, h);
  }

  /** Every reached cell at distance d > 0 has a neighbour at distance d - 1. */
  predicate HasParents(f: IntField, w: int, h: int)
    requires IntShaped(f, w, h)
  {
    forall y, x :: 0 <= y < h && 0 <= x < w ==> HasParentAt(f, w, h, x, y)
  }

  predicate HasParentAt(f: IntField, w: int, h: int, x: int, y: int)
    requires IntShaped(f, w, h) && IsValidCoord(w, h, x, y)
  {
    f[y][x] != MaxInt32 && f[y][x] != 0 ==>
      exists c :: c in Neighbors(w, h, x, y) && 0 <= c.y < h && 0 <= c.x < w && f[c.y][c.x] == f[y][x] - 1
  }

  /** Every queue entry names a cell holding that entry's distance. */
  predicate QueueOK(queue: seq<QueueEntry>, f: IntField, w: int, h: int)
    requires IntShaped(f, w, h)
  {
    forall i :: 0 <= i < |queue| ==> QueueEntryOK(queue[i], f, w, h)
  }

  predicate QueueEntryOK(e: QueueEntry, f: IntField, w: int, h: int)
    requires IntShaped(f, w, h)
  {
    IsValidCoord(w, h, e.x, e.y) && f[e.y][e.x] == e.d && e.d < MaxInt32
  }

  /** Distance zero exactly at the seeds. */
  predicate SeedsExact(g: Grid, f: IntField, w: int, h: int)
    requires Shaped(g, w, h) && IntShaped(f, w, h)
  {
    forall y, x :: 0 <= y < h && 0 <= x < w ==> SeedAt(g, f, w, h, x, y)
  }

  predicate SeedAt(g: Grid, f: IntField, w: int, h: int, x: int, y: int)
    requires Shaped(g, w, h) && IntShaped(f, w, h) && IsValidCoord(w, h, x, y)
  {
    f[y][x] == 0 <==> IsEdgeSeed(g, w, h, x, y)
  }

  /** What holds of DistToEdge and the queue at every step of the search. */
  predicate BfsState(g: Grid, f: IntField, w: int, h: int, maxDist: int, queue: seq<QueueEntry>)
  {
    Shaped(g, w, h) && IntShaped(f, w, h) && QueueOK(queue, f, w, h) && Reached(g, f, w, h, maxDist)
    && SeedsExact(g, f, w, h) && HasParents(f, w, h)
  }

  /** The seeding scan has visited the cells before (y, x). */
  predicate SeedInv(g: Grid, f: IntField, queue: seq<QueueEntry>, w: int, h: int, y: int, x: int)
    requires Shaped(g, w, h)
  {
    IntShaped(f, w, h) && QueueOK(queue, f, w, h) && (forall i :: 0 <= i < |queue| ==> queue[i].d == 0)
    && (forall yy, xx :: 0 <= yy < h && 0 <= xx < w ==>
          f[yy][xx] == if Before(yy, xx, y, x) && IsEdgeSeed(g, w, h, xx, yy) then 0 else MaxInt32)
    && (forall yy, xx :: 0 <= yy < h && 0 <= xx < w && f[yy][xx] == 0 ==> Pending(queue, 0, xx, yy))
  }

  lemma SeedStep(g: Grid, f: IntField, queue: seq<QueueEntry>, f': IntField, queue': seq<QueueEntry>,
                 w: int, h: int, y: int, x: int, seed: bool)
    requires Shaped(g, w, h) && IsValidCoord(w, h, x, y) && SeedInv(g, f, queue, w, h, y, x)
    requires seed == IsEdgeSeed(g, w, h, x, y)
    requires seed ==> f' == SetInt(f, x, y, 0) && queue' == queue + [QueueEntry(x, y, 0)]
    requires !seed ==> f' == f && queue' == queue
    ensures SeedInv(g, f', queue', w, h, y, x + 1)
  {
    if seed {
      assert f[y][x] == MaxInt32;
      assert queue'[|queue'| - 1].x == x && queue'[|queue'| - 1].y == y;
      forall i | 0 <= i < |queue'| ensures QueueEntryOK(queue'[i], f', w, h) && queue'[i].d == 0 {
        if i < |queue| { assert queue'[i] == queue[i]; }
      }
      assert queue'[..|queue|] == queue;
      forall yy, xx | 0 <= yy < h && 0 <= xx < w && f'[yy][xx] == 0 ensures Pending(queue', 0, xx, yy) {
        if yy != y || xx != x { PendingGrows(queue, queue', 0, xx, yy); }
        else { assert queue'[|queue|].x == xx && queue'[|queue|].y == yy; }
      }
    }
  }

  lemma SeedNextRow(g: Grid, f: IntField, queue: seq<QueueEntry>, w: int, h: int, y: int)
    requires Shaped(g, w, h) && SeedInv(g, f, queue, w, h, y, w)
    ensures SeedInv(g, f, queue, w, h, y + 1, 0)
  {
    forall yy, xx | 0 <= yy < h && 0 <= xx < w ensures Before(yy, xx, y, w) == Before(yy, xx, y + 1, 0) { }
  }

  lemma SeedDone(g: Grid, f: IntField, queue: seq<QueueEntry>, w: int, h: int, maxDist: int)
    requires Shaped(g, w, h) && SeedInv(g, f, queue, w, h, h, 0)
    ensures BfsState(g, f, w, h, maxDist, queue)
    ensures AllQueued(f, queue, w, h) && forall i :: 0 <= i < |queue| ==> queue[i].d == 0
  {
    forall y, x | 0 <= y < h && 0 <= x < w ensures SeedAt(g, f, w, h, x, y) && HasParentAt(f, w, h, x, y) {
      assert Before(y, x, h, 0);
    }
  }

  /** The seeding scan: distance 0 and a queue entry for every seed, MAX_int32 elsewhere. */
  method SeedEdges(g: Grid, w: int, h: int, maxDist: int) returns (dist: IntField, queue: seq<QueueEntry>)
    requires Shaped(g, w, h)
    ensures BfsState(g, dist, w, h, maxDist, queue)
    ensures AllQueued(dist, queue, w, h) && forall i :: 0 <= i < |queue| ==> queue[i].d == 0
  {
    dist := seq(h, _ => seq(w, _ => MaxInt32));
    queue := [];
    var y := 0;
    while y < h
      invariant 0 <= y <= h && SeedInv(g, dist, queue, w, h, y, 0)
    {
      var x := 0;
      while x < w
        invariant 0 <= x <= w && SeedInv(g, dist, queue, w, h, y, x)
      {
        ghost var prev, prevQueue := dist, queue;
        var seed := false;
        if g[y][x].inWorld {
          var ns := GetNeighbors(w, h, x, y);
          NeighborsInGrid(g, w, h, x, y);
          if SomeOutside(g, ns) || |ns| < 8 {
            seed := true;
            dist := SetInt(dist, x, y, 0);
            queue := queue + [QueueEntry(x, y, 0)];
          }
        }
        SeedStep(g, prev, prevQueue, dist, queue, w, h, y, x, seed);
        x := x + 1;
      }
      SeedNextRow(g, dist, queue, w, h, y);
      y := y + 1;
    }
    SeedDone(g, dist, queue, w, h, maxDist);
  }

  /** The expansion of entry e has handled the first k neighbours ns[..k]. */
  predicate ExpandInv(g: Grid, f0: IntField, q0: seq<QueueEntry>, f: IntField, q: seq<QueueEntry>,
                      w: int, h: int, maxDist: int, e: QueueEntry, ns: seq<Coord>, k: int)
  {
    0 <= k <= |ns| && (forall c :: c in ns ==> IsValidCoord(w, h, c.x, c.y))
    && BfsState(g, f, w, h, maxDist, q) && QueueEntryOK(e, f, w, h)
    && ExpandFrame(f0, q0, f, q, w, h) && DoneUpTo(g, f, w, h, ns, k)
    && Layered(q, e.d) && AllQueued(f, q, w, h)
  }

  /** In-world cells among ns[..k] are reached. */
  predicate DoneUpTo(g: Grid, f: IntField, w: int, h: int, ns: seq<Coord>, k: int)
  {
    Shaped(g, w, h) && IntShaped(f, w, h) && 0 <= k <= |ns| && (forall c :: c in ns ==> IsValidCoord(w, h, c.x, c.y))
    && forall j :: 0 <= j < k && g[ns[j].y][ns[j].x].inWorld ==> f[ns[j].y][ns[j].x] != MaxInt32
  }

  /** What an expansion changes: only cells at MAX_int32, each of them queued after q0; the queue only grows. */
  predicate ExpandFrame(f0: IntField, q0: seq<QueueEntry>, f: IntField, q: seq<QueueEntry>, w: int, h: int)
  {
    IntShaped(f0, w, h) && IntShaped(f, w, h)
    && |q| >= |q0| && q[..|q0|] == q0
    && (forall y, x :: 0 <= y < h && 0 <= x < w && f0[y][x] != MaxInt32 ==> f[y][x] == f0[y][x])
    && (forall y, x :: 0 <= y < h && 0 <= x < w && f0[y][x] == MaxInt32 && f[y][x] != MaxInt32 ==>
          Pending(q, |q0|, x, y))
    && Unreached(f, w, h) <= Unreached(f0, w, h)
    && (Unreached(f, w, h) == Unreached(f0, w, h) ==> q == q0)
  }

  lemma FrameStep(f0: IntField, q0: seq<QueueEntry>, f: IntField, q: seq<QueueEntry>,
                  f': IntField, q': seq<QueueEntry>, w: int, h: int, n: Coord, v: int)
    requires ExpandFrame(f0, q0, f, q, w, h)
    requires IsValidCoord(w, h, n.x, n.y) && f[n.y][n.x] == MaxInt32 && v != MaxInt32
    requires f' == SetInt(f, n.x, n.y, v) && q' == q + [QueueEntry(n.x, n.y, v)]
    ensures ExpandFrame(f0, q0, f', q', w, h)
  {
    UnreachedShrinks(f, f', w, h, n, v);
    assert q'[..|q|] == q;
    assert q'[..|q0|] == q[..|q0|];
    forall y, x | 0 <= y < h && 0 <= x < w && f0[y][x] == MaxInt32 && f'[y][x] != MaxInt32
      ensures Pending(q', |q0|, x, y)
    {
      if y != n.y || x != n.x { PendingGrows(q, q', |q0|, x, y); }
      else { assert q'[|q|].x == x && q'[|q|].y == y; }
    }
  }

  lemma DoneStep(g: Grid, f: IntField, f': IntField, w: int, h: int, ns: seq<Coord>, k: int)
    requires DoneUpTo(g, f, w, h, ns, k) && k < |ns| && IntShaped(f', w, h)
    requires forall y, x :: 0 <= y < h && 0 <= x < w && f[y][x] != MaxInt32 ==> f'[y][x] == f[y][x]
    requires g[ns[k].y][ns[k].x].inWorld ==> f'[ns[k].y][ns[k].x] != MaxInt32
    ensures DoneUpTo(g, f', w, h, ns, k + 1)
  {
    assert ns[k] in ns;
    forall j | 0 <= j < k + 1 && g[ns[j].y][ns[j].x].inWorld ensures f'[ns[j].y][ns[j].x] != MaxInt32 {
      assert ns[j] in ns;
    }
  }

  /** The k-th neighbour is in the world and unreached: it gets e's distance plus one and is queued. */
  lemma ExpandReach(g: Grid, f0: IntField, q0: seq<QueueEntry>, f: IntField, q: seq<QueueEntry>,
                    w: int, h: int, maxDist: int, e: QueueEntry, ns: seq<Coord>, k: int)
    requires ExpandInv(g, f0, q0, f, q, w, h, maxDist, e, ns, k) && k < |ns|
    requires maxDist < MaxInt32 && e.d < maxDist && ns == Neighbors(w, h, e.x, e.y)
    requires g[ns[k].y][ns[k].x].inWorld && f[ns[k].y][ns[k].x] == MaxInt32
    ensures ExpandInv(g, f0, q0, SetInt(f, ns[k].x, ns[k].y, e.d + 1), q + [QueueEntry(ns[k].x, ns[k].y, e.d + 1)],
                      w, h, maxDist, e, ns, k + 1)
  {
    var n := ns[k];
    assert n in ns;
    var f', q' := SetInt(f, n.x, n.y, e.d + 1), q + [QueueEntry(n.x, n.y, e.d + 1)];
    ReachStep(g, f, f', w, h, maxDist, q, q', e, n);
    FrameStep(f0, q0, f, q, f', q', w, h, n, e.d + 1);
    DoneStep(g, f, f', w, h, ns, k);
    QueueGrows(f, q, w, h, n, e.d);
  }

  /** The k-th neighbour is outside the world or already reached: nothing changes. */
  lemma ExpandKeep(g: Grid, f0: IntField, q0: seq<QueueEntry>, f: IntField, q: seq<QueueEntry>,
                   w: int, h: int, maxDist: int, e: QueueEntry, ns: seq<Coord>, k: int)
    requires ExpandInv(g, f0, q0, f, q, w, h, maxDist, e, ns, k) && k < |ns|
    requires !(g[ns[k].y][ns[k].x].inWorld && f[ns[k].y][ns[k].x] == MaxInt32)
    ensures ExpandInv(g, f0, q0, f, q, w, h, maxDist, e, ns, k + 1)
  {
    DoneStep(g, f, f, w, h, ns, k);
  }

  /** Expanding one dequeued entry: its in-world neighbours still at MAX_int32 get its distance plus one. */
  method ExpandFrom(g: Grid, w: int, h: int, maxDist: int, dist0: IntField, queue0: seq<QueueEntry>, e: QueueEntry)
    returns (dist: IntField, queue: seq<QueueEntry>)
    requires BfsState(g, dist0, w, h, maxDist, queue0) && maxDist < MaxInt32
    requires QueueEntryOK(e, dist0, w, h) && e.d < maxDist
    requires Layered(queue0, e.d) && AllQueued(dist0, queue0, w, h)
    ensures ExpandInv(g, dist0, queue0, dist, queue, w, h, maxDist, e, Neighbors(w, h, e.x, e.y), |Neighbors(w, h, e.x, e.y)|)
  {
    dist, queue := dist0, queue0;
    var ns := GetNeighbors(w, h, e.x, e.y);
    NeighborsValid(w, h, e.x, e.y);
    var k := 0;
    while k < |ns|
      invariant ExpandInv(g, dist0, queue0, dist, queue, w, h, maxDist, e, ns, k)
    {
      dist, queue := VisitNeighbour(g, w, h, maxDist, dist0, queue0, dist, queue, e, ns, k);
      k := k + 1;
    }
  }

  /** The body of the expansion loop for the k-th neighbour: reached and queued if it is in the world and still at MAX_int32. */
  method VisitNeighbour(g: Grid, w: int, h: int, maxDist: int, dist0: IntField, queue0: seq<QueueEntry>,
                        dist: IntField, queue: seq<QueueEntry>, e: QueueEntry, ns: seq<Coord>, k: int)
    returns (dist': IntField, queue': seq<QueueEntry>)
    requires ExpandInv(g, dist0, queue0, dist, queue, w, h, maxDist, e, ns, k) && k < |ns|
    requires maxDist < MaxInt32 && e.d < maxDist && ns == Neighbors(w, h, e.x, e.y)
    ensures ExpandInv(g, dist0, queue0, dist', queue', w, h, maxDist, e, ns, k + 1)
  {
    var n := ns[k];
    assert n in ns;
    if g[n.y][n.x].inWorld && dist[n.y][n.x] == MaxInt32 {
      ExpandReach(g, dist0, queue0, dist, queue, w, h, maxDist, e, ns, k);
      dist' := SetInt(dist, n.x, n.y, e.d + 1);
      queue' := queue + [QueueEntry(n.x, n.y, e.d + 1)];
    } else {
      ExpandKeep(g, dist0, queue0, dist, queue, w, h, maxDist, e, ns, k);
      dist', queue' := dist, queue;
    }
  }

  /** After a full expansion of e, all of e's in-world neighbours are reached. */
  lemma ExpandDone(g: Grid, f0: IntField, q0: seq<QueueEntry>, f: IntField, q: seq<QueueEntry>,
                   w: int, h: int, maxDist: int, e: QueueEntry)
    requires ExpandInv(g, f0, q0, f, q, w, h, maxDist, e, Neighbors(w, h, e.x, e.y), |Neighbors(w, h, e.x, e.y)|)
    ensures NeighboursClose(g, f, w, h, e.x, e.y)
  {
    var ns := Neighbors(w, h, e.x, e.y);
    forall c | c in ns && 0 <= c.y < h && 0 <= c.x < w && g[c.y][c.x].inWorld
      ensures f[c.y][c.x] != MaxInt32 && f[c.y][c.x] <= f[e.y][e.x] + 1
    {
      var j :| 0 <= j < |ns| && ns[j] == c;
      assert f[c.y][c.x] != MaxInt32;
      QueuedAtMost(f, q, w, h, e.d, c);
    }
  }

  /** The queue is in order of distance, and no entry is more than one step beyond d. */
  predicate Layered(q: seq<QueueEntry>, d: int)
  {
    (forall i, j :: 0 <= i <= j < |q| ==> q[i].d <= q[j].d)
    && forall i :: 0 <= i < |q| ==> q[i].d <= d + 1
  }

  /** Every reached cell has been queued. */
  predicate AllQueued(f: IntField, q: seq<QueueEntry>, w: int, h: int)
    requires IntShaped(f, w, h)
  {
    forall y, x :: 0 <= y < h && 0 <= x < w && f[y][x] != MaxInt32 ==> Pending(q, 0, x, y)
  }

  /** A reached cell's distance is that of its queue entry, so at most d + 1. */
  lemma QueuedAtMost(f: IntField, q: seq<QueueEntry>, w: int, h: int, d: int, c: Coord)
    requires IntShaped(f, w, h) && QueueOK(q, f, w, h) && Layered(q, d) && AllQueued(f, q, w, h)
    requires IsValidCoord(w, h, c.x, c.y) && f[c.y][c.x] != MaxInt32
    ensures f[c.y][c.x] <= d + 1
  {
    var i :| 0 <= i < |q| && q[i].x == c.x && q[i].y == c.y;
    assert QueueEntryOK(q[i], f, w, h);
  }

  /** Queueing the newly reached cell n at distance d + 1 keeps the queue in order and every reached cell queued. */
  lemma QueueGrows(f: IntField, q: seq<QueueEntry>, w: int, h: int, n: Coord, d: int)
    requires IntShaped(f, w, h) && IsValidCoord(w, h, n.x, n.y) && f[n.y][n.x] == MaxInt32
    requires Layered(q, d) && AllQueued(f, q, w, h)
    ensures Layered(q + [QueueEntry(n.x, n.y, d + 1)], d)
    ensures AllQueued(SetInt(f, n.x, n.y, d + 1), q + [QueueEntry(n.x, n.y, d + 1)], w, h)
  {
    var q' := q + [QueueEntry(n.x, n.y, d + 1)];
    var f' := SetInt(f, n.x, n.y, d + 1);
    assert q'[..|q|] == q;
    forall y, x | 0 <= y < h && 0 <= x < w && f'[y][x] != MaxInt32 ensures Pending(q', 0, x, y) {
      if y != n.y || x != n.x {
        PendingGrows(q, q', 0, x, y);
      } else {
        assert q'[|q|].x == x && q'[|q|].y == y;
      }
    }
  }

  /** One neighbour reached from the entry e: the search state still holds. */
  lemma ReachStep(g: Grid, prev: IntField, f: IntField, w: int, h: int, maxDist: int,
                  prevQueue: seq<QueueEntry>, queue: seq<QueueEntry>, e: QueueEntry, n: Coord)
    requires BfsState(g, prev, w, h, maxDist, prevQueue) && maxDist < MaxInt32
    requires QueueEntryOK(e, prev, w, h) && e.d < maxDist
    requires n in Neighbors(w, h, e.x, e.y) && IsValidCoord(w, h, n.x, n.y)
    requires g[n.y][n.x].inWorld && prev[n.y][n.x] == MaxInt32
    requires f == SetInt(prev, n.x, n.y, e.d + 1)
    requires queue == prevQueue + [QueueEntry(n.x, n.y, e.d + 1)]
    ensures BfsState(g, f, w, h, maxDist, queue) && QueueEntryOK(e, f, w, h)
    ensures queue[..|prevQueue|] == prevQueue
    ensures queue[|queue| - 1].x == n.x && queue[|queue| - 1].y == n.y
  {
    assert 0 <= prev[e.y][e.x] == e.d;
    ReachedBounded(g, prev, w, h, maxDist);
    NeighborsExactly(w, h, e.x, e.y, n);
    NeighborsExactly(w, h, n.x, n.y, Coord(e.x, e.y));
    StepKeepsQueue(prev, f, w, h, prevQueue, queue, n, e.d + 1);
    StepKeepsReached(g, prev, f, w, h, maxDist, n, e.d + 1);
    StepKeepsParents(f, prev, w, h, n, Coord(e.x, e.y));
    StepKeepsSeeds(g, f, prev, w, h, n);
  }

  lemma StepKeepsQueue(prev: IntField, f: IntField, w: int, h: int, prevQueue: seq<QueueEntry>, queue: seq<QueueEntry>,
                       n: Coord, v: int)
    requires IntShaped(prev, w, h) && QueueOK(prevQueue, prev, w, h)
    requires IsValidCoord(w, h, n.x, n.y) && prev[n.y][n.x] == MaxInt32 && v < MaxInt32
    requires f == SetInt(prev, n.x, n.y, v) && queue == prevQueue + [QueueEntry(n.x, n.y, v)]
    ensures IntShaped(f, w, h) && QueueOK(queue, f, w, h)
    ensures queue[..|prevQueue|] == prevQueue
    ensures queue[|queue| - 1].x == n.x && queue[|queue| - 1].y == n.y
  {
    assert queue[..|prevQueue|] == prevQueue;
    forall i | 0 <= i < |queue| ensures QueueEntryOK(queue[i], f, w, h) {
      if i < |prevQueue| { assert queue[i] == prevQueue[i]; }
    }
  }

  /** No entry of the field exceeds MAX_int32. */
  predicate Bounded(f: IntField, w: int, h: int)
    requires IntShaped(f, w, h)
  {
    forall y, x :: 0 <= y < h && 0 <= x < w ==> f[y][x] <= MaxInt32
  }

  lemma ReachedBounded(g: Grid, f: IntField, w: int, h: int, maxDist: int)
    requires Shaped(g, w, h) && IntShaped(f, w, h) && Reached(g, f, w, h, maxDist)
    ensures Bounded(f, w, h)
  {
  }

  lemma StepKeepsReached(g: Grid, prev: IntField, f: IntField, w: int, h: int, maxDist: int, n: Coord, v: int)
    requires Shaped(g, w, h) && IntShaped(prev, w, h) && Reached(g, prev, w, h, maxDist)
    requires IsValidCoord(w, h, n.x, n.y) && g[n.y][n.x].inWorld && 0 < v <= maxDist && v < MaxInt32
    requires f == SetInt(prev, n.x, n.y, v)
    ensures IntShaped(f, w, h) && Reached(g, f, w, h, maxDist)
  {
  }

  lemma StepKeepsParents(f: IntField, prev: IntField, w: int, h: int, n: Coord, parent: Coord)
    requires IntShaped(prev, w, h) && IsValidCoord(w, h, n.x, n.y) && IsValidCoord(w, h, parent.x, parent.y)
    requires HasParents(prev, w, h) && prev[n.y][n.x] == MaxInt32
    requires 0 <= prev[parent.y][parent.x] < MaxInt32 - 1 && Bounded(prev, w, h)
    requires f == SetInt(prev, n.x, n.y, prev[parent.y][parent.x] + 1)
    requires prev[parent.y][parent.x] != MaxInt32 && parent in Neighbors(w, h, n.x, n.y)
    ensures HasParents(f, w, h)
  {
    forall yy, xx | 0 <= yy < h && 0 <= xx < w ensures HasParentAt(f, w, h, xx, yy)
    {
      if yy == n.y && xx == n.x {
        assert parent in Neighbors(w, h, xx, yy) && f[parent.y][parent.x] == f[yy][xx] - 1;
      } else if f[yy][xx] != MaxInt32 && f[yy][xx] != 0 {
        assert HasParentAt(prev, w, h, xx, yy);
        var c :| c in Neighbors(w, h, xx, yy) && 0 <= c.y < h && 0 <= c.x < w && prev[c.y][c.x] == prev[yy][xx] - 1;
        assert f[c.y][c.x] == f[yy][xx] - 1;
      }
    }
  }

  lemma StepKeepsSeeds(g: Grid, f: IntField, prev: IntField, w: int, h: int, n: Coord)
    requires Shaped(g, w, h) && IntShaped(prev, w, h) && IsValidCoord(w, h, n.x, n.y)
    requires SeedsExact(g, prev, w, h) && prev[n.y][n.x] == MaxInt32
    requires IntShaped(f, w, h) && f[n.y][n.x] > 0
    requires forall y, x :: 0 <= y < h && 0 <= x < w && (y != n.y || x != n.x) ==> f[y][x] == prev[y][x]
    ensures SeedsExact(g, f, w, h)
  {
    forall y, x | 0 <= y < h && 0 <= x < w ensures SeedAt(g, f, w, h, x, y) {
      assert SeedAt(g, prev, w, h, x, y);
    }
  }

  /**
   * DistToEdge: the seeds get 0; the queue is drained from Head, and an entry
   * below MaxDist gives each in-world neighbour still at MAX_int32 its own
   * distance plus one.
   */
  method EdgeDistances(g: Grid, w: int, h: int, p: SimulationParams) returns (dist: IntField)
    requires Shaped(g, w, h)
    requires MaxSearchDist(p) < MaxInt32
    ensures IntShaped(dist, w, h)
    // only in-world cells are reached, and at most MaxDist away
    ensures Reached(g, dist, w, h, MaxSearchDist(p))
    // distance zero exactly at the seeds
    ensures SeedsExact(g, dist, w, h)
    // every other reached cell is one step further than a neighbour
    ensures HasParents(dist, w, h)
    // closure: an in-world cell left at MAX_int32 has no neighbour the search expanded from
    ensures forall y, x, c ::
      (0 <= y < h && 0 <= x < w && g[y][x].inWorld && dist[y][x] == MaxInt32 && c in Neighbors(w, h, x, y) && IsValidCoord(w, h, c.x, c.y)) ==>
        dist[c.y][c.x] == MaxInt32 || dist[c.y][c.x] >= MaxSearchDist(p)
    // each reached cell is that many steps from a seed ...
    ensures forall y, x :: 0 <= y < h && 0 <= x < w && 0 <= dist[y][x] < MaxInt32 ==> WithinSteps(g, w, h, x, y, dist[y][x])
    // ... and no fewer steps, and every cell within MaxDist steps of a seed is reached
    ensures forall y, x, j: nat :: 0 <= y < h && 0 <= x < w && WithinSteps(g, w, h, x, y, j) && (j == 0 || j <= MaxSearchDist(p)) ==>
      dist[y][x] != MaxInt32 && dist[y][x] <= j
    ensures dist == DistanceField(g, w, h, MaxSearchDist(p))
  {
    var maxDist := MaxSearchDist(p);
    var queue;
    dist, queue := SeedEdges(g, w, h, maxDist);
    var head := 0;
    while head < |queue|
      invariant SearchState(g, dist, w, h, maxDist, queue, head)
      decreases Unreached(dist, w, h), |queue| - head
    {
      dist, queue := Dequeue(g, w, h, maxDist, dist, queue, head);
      head := head + 1;
    }
    Closure(g, dist, w, h, maxDist, queue);
    SearchResult(g, dist, w, h, maxDist, queue);
  }

  /** What holds between two turns of the search loop. */
  predicate SearchState(g: Grid, f: IntField, w: int, h: int, maxDist: int, queue: seq<QueueEntry>, head: int)
  {
    0 <= head <= |queue| && BfsState(g, f, w, h, maxDist, queue)
    && Expanded(g, f, w, h, maxDist, queue, head)
    && InOrder(queue, head) && AllQueued(f, queue, w, h)
  }

  /** One turn of the search loop: the entry at Head is taken and, when it is below MaxDist, expanded. */
  method Dequeue(g: Grid, w: int, h: int, maxDist: int, dist0: IntField, queue0: seq<QueueEntry>, head: int)
    returns (dist: IntField, queue: seq<QueueEntry>)
    requires SearchState(g, dist0, w, h, maxDist, queue0, head) && head < |queue0| && maxDist < MaxInt32
    ensures SearchState(g, dist, w, h, maxDist, queue, head + 1)
    ensures Unreached(dist, w, h) <= Unreached(dist0, w, h)
    ensures Unreached(dist, w, h) == Unreached(dist0, w, h) ==> queue == queue0
  {
    var e := queue0[head];
    if e.d < maxDist {
      InOrderLayered(queue0, head);
      dist, queue := ExpandFrom(g, w, h, maxDist, dist0, queue0, e);
      ExpandDone(g, dist0, queue0, dist, queue, w, h, maxDist, e);
      ExpandedStep(g, dist0, dist, w, h, maxDist, queue0, queue, head, e);
      InOrderStep(queue0, queue, head);
    } else {
      dist, queue := dist0, queue0;
      ExpandedSkip(g, dist, w, h, maxDist, queue, head, e);
    }
  }

  /** The queue is in order of distance, and nothing waiting is more than one step beyond the entry at the head. */
  predicate InOrder(q: seq<QueueEntry>, head: int)
  {
    (forall i, j :: 0 <= i <= j < |q| ==> q[i].d <= q[j].d)
    && (0 <= head < |q| ==> q[|q| - 1].d <= q[head].d + 1)
  }

  /** Before the entry at the head is expanded, every entry is within one step of it. */
  lemma InOrderLayered(q: seq<QueueEntry>, head: int)
    requires 0 <= head < |q| && InOrder(q, head)
    ensures Layered(q, q[head].d)
  {
  }

  /** Expanding the entry at the head appends entries one step beyond it, which keeps the order for the next head. */
  lemma InOrderStep(q0: seq<QueueEntry>, q: seq<QueueEntry>, head: int)
    requires 0 <= head < |q0| && |q| >= |q0| && q[..|q0|] == q0
    requires Layered(q, q0[head].d)
    ensures InOrder(q, head + 1)
  {
    assert q[head] == q0[head];
  }

  /** Once the queue is drained, no reached cell below MaxDist borders an unreached in-world cell. */
  lemma Closure(g: Grid, f: IntField, w: int, h: int, maxDist: int, queue: seq<QueueEntry>)
    requires Shaped(g, w, h) && IntShaped(f, w, h)
    requires Expanded(g, f, w, h, maxDist, queue, |queue|)
    ensures forall y, x, c ::
      (0 <= y < h && 0 <= x < w && g[y][x].inWorld && f[y][x] == MaxInt32 && c in Neighbors(w, h, x, y) && IsValidCoord(w, h, c.x, c.y)) ==>
        f[c.y][c.x] == MaxInt32 || f[c.y][c.x] >= maxDist
  {
    forall y, x, c | 0 <= y < h && 0 <= x < w && g[y][x].inWorld && f[y][x] == MaxInt32
      && c in Neighbors(w, h, x, y) && IsValidCoord(w, h, c.x, c.y)
      ensures f[c.y][c.x] == MaxInt32 || f[c.y][c.x] >= maxDist
    {
      NeighborsExactly(w, h, x, y, c);
      NeighborsExactly(w, h, c.x, c.y, Coord(x, y));
    }
  }

  lemma ExpandedStep(g: Grid, f0: IntField, f: IntField, w: int, h: int, maxDist: int,
                     q0: seq<QueueEntry>, q: seq<QueueEntry>, head: int, e: QueueEntry)
    requires Shaped(g, w, h) && IntShaped(f0, w, h) && IntShaped(f, w, h)
    requires 0 <= head < |q0| && q0[head] == e && QueueOK(q0, f0, w, h)
    requires Expanded(g, f0, w, h, maxDist, q0, head)
    requires |q| >= |q0| && q[..|q0|] == q0
    requires NeighboursClose(g, f, w, h, e.x, e.y)
    requires forall y, x :: 0 <= y < h && 0 <= x < w && f0[y][x] != MaxInt32 ==> f[y][x] == f0[y][x]
    requires forall y, x :: 0 <= y < h && 0 <= x < w && f0[y][x] == MaxInt32 && f[y][x] != MaxInt32 ==>
      Pending(q, |q0|, x, y)
    ensures Expanded(g, f, w, h, maxDist, q, head + 1)
  {
    forall y, x | 0 <= y < h && 0 <= x < w && f[y][x] != MaxInt32
      ensures Pending(q, head + 1, x, y) || f[y][x] >= maxDist || NeighboursClose(g, f, w, h, x, y)
    {
      ExpandedCell(g, f0, f, w, h, maxDist, q0, q, head, e, x, y);
    }
  }

  lemma ExpandedCell(g: Grid, f0: IntField, f: IntField, w: int, h: int, maxDist: int,
                     q0: seq<QueueEntry>, q: seq<QueueEntry>, head: int, e: QueueEntry, x: int, y: int)
    requires Shaped(g, w, h) && IntShaped(f0, w, h) && IntShaped(f, w, h)
    requires 0 <= head < |q0| && q0[head] == e && QueueOK(q0, f0, w, h)
    requires Expanded(g, f0, w, h, maxDist, q0, head)
    requires |q| >= |q0| && q[..|q0|] == q0
    requires NeighboursClose(g, f, w, h, e.x, e.y)
    requires forall y, x :: 0 <= y < h && 0 <= x < w && f0[y][x] != MaxInt32 ==> f[y][x] == f0[y][x]
    requires forall y, x :: 0 <= y < h && 0 <= x < w && f0[y][x] == MaxInt32 && f[y][x] != MaxInt32 ==>
      Pending(q, |q0|, x, y)
    requires 0 <= y < h && 0 <= x < w && f[y][x] != MaxInt32
    ensures Pending(q, head + 1, x, y) || f[y][x] >= maxDist || NeighboursClose(g, f, w, h, x, y)
  {
    if f0[y][x] == MaxInt32 {
      var i :| |q0| <= i < |q| && q[i].x == x && q[i].y == y;
      assert Pending(q, head + 1, x, y);
    } else if Pending(q0, head, x, y) {
      var i :| head <= i < |q0| && q0[i].x == x && q0[i].y == y;
      if i > head {
        assert q[i] == q0[i];
        assert Pending(q, head + 1, x, y);
      }
    } else if f0[y][x] < maxDist {
      assert NeighboursClose(g, f0, w, h, x, y);
      forall c | c in Neighbors(w, h, x, y) && 0 <= c.y < h && 0 <= c.x < w && g[c.y][c.x].inWorld
        ensures f[c.y][c.x] != MaxInt32 && f[c.y][c.x] <= f[y][x] + 1
      {
        assert f0[c.y][c.x] != MaxInt32;
      }
    }
  }

  lemma ExpandedSkip(g: Grid, f: IntField, w: int, h: int, maxDist: int, q: seq<QueueEntry>, head: int, e: QueueEntry)
    requires Shaped(g, w, h) && IntShaped(f, w, h)
    requires 0 <= head < |q| && q[head] == e && QueueOK(q, f, w, h) && e.d >= maxDist
    requires Expanded(g, f, w, h, maxDist, q, head)
    ensures Expanded(g, f, w, h, maxDist, q, head + 1)
  {
    forall y, x | 0 <= y < h && 0 <= x < w && f[y][x] != MaxInt32 && Pending(q, head, x, y)
      ensures Pending(q, head + 1, x, y) || f[y][x] >= maxDist
    {
      var i :| head <= i < |q| && q[i].x == x && q[i].y == y;
      if i > head { assert Pending(q, head + 1, x, y); }
    }
  }

  /** Reached cells are in the world, at distance 0 or at most maxDist. */
  predicate Reached(g: Grid, f: IntField, w: int, h: int, maxDist: int)
    requires Shaped(g, w, h) && IntShaped(f, w, h)
  {
    forall y, x :: 0 <= y < h && 0 <= x < w && f[y][x] != MaxInt32 ==>
      g[y][x].inWorld && 0 <= f[y][x] && (f[y][x] == 0 || f[y][x] <= maxDist) && f[y][x] < MaxInt32
  }

  /** A reached cell is still queued, or too far to expand, or all its in-world neighbours are reached. */
  predicate Expanded(g: Grid, f: IntField, w: int, h: int, maxDist: int, queue: seq<QueueEntry>, head: int)
    requires Shaped(g, w, h) && IntShaped(f, w, h)
  {
    forall y, x :: 0 <= y < h && 0 <= x < w && f[y][x] != MaxInt32 ==>
      Pending(queue, head, x, y) || f[y][x] >= maxDist || NeighboursClose(g, f, w, h, x, y)
  }

  predicate Pending(queue: seq<QueueEntry>, head: int, x: int, y: int)
  {
    exists i :: 0 <= head <= i < |queue| && queue[i].x == x && queue[i].y == y
  }

  lemma PendingGrows(q: seq<QueueEntry>, q': seq<QueueEntry>, head: int, x: int, y: int)
    requires Pending(q, head, x, y) && |q'| >= |q| && q'[..|q|] == q
    ensures Pending(q', head, x, y)
  {
    var i :| 0 <= head <= i < |q| && q[i].x == x && q[i].y == y;
    assert q'[i] == q[i];
  }

  /** Every in-world neighbour of (x, y) is reached, at most one step further than (x, y). */
  predicate NeighboursClose(g: Grid, f: IntField, w: int, h: int, x: int, y: int)
    requires Shaped(g, w, h) && IntShaped(f, w, h) && IsValidCoord(w, h, x, y)
  {
    forall c :: c in Neighbors(w, h, x, y) && 0 <= c.y < h && 0 <= c.x < w && g[c.y][c.x].inWorld ==>
      f[c.y][c.x] != MaxInt32 && f[c.y][c.x] <= f[y][x] + 1
  }

  // ---------------------------------------------------------------------
  // 4. What the search computes: the length of the shortest chain of
  //    in-world neighbour steps to a seed, when that is at most MaxDist.

  /** (x, y) is in the world and reaches a seed in at most k steps between in-world neighbours. */
  predicate WithinSteps(g: Grid, w: int, h: int, x: int, y: int, k: nat)
    requires Shaped(g, w, h) && IsValidCoord(w, h, x, y)
    decreases k
  {
    g[y][x].inWorld
    && (IsEdgeSeed(g, w, h, x, y)
        || (k > 0 && exists c :: c in Neighbors(w, h, x, y) && IsValidCoord(w, h, c.x, c.y) && WithinSteps(g, w, h, c.x, c.y, k - 1)))
  }

  /** The fewest steps from (x, y) to a seed, trying k, k + 1, ... up to MaxDist; MAX_int32 when none of them is enough. */
  function ShortestFrom(g: Grid, w: int, h: int, x: int, y: int, maxDist: int, k: nat): int
    requires Shaped(g, w, h) && IsValidCoord(w, h, x, y)
    decreases maxDist - k
  {
    if WithinSteps(g, w, h, x, y, k) && (k == 0 || k <= maxDist) then k
    else if k >= maxDist then MaxInt32
    else ShortestFrom(g, w, h, x, y, maxDist, k + 1)
  }

  lemma {:induction false} ShortestFromIs(g: Grid, w: int, h: int, x: int, y: int, maxDist: int, k: nat)
    requires Shaped(g, w, h) && IsValidCoord(w, h, x, y) && maxDist < MaxInt32
    ensures var r := ShortestFrom(g, w, h, x, y, maxDist, k);
      (r != MaxInt32 ==> k <= r && (r == 0 || r <= maxDist) && WithinSteps(g, w, h, x, y, r))
      && forall j: nat :: k <= j < r && (j == 0 || j <= maxDist) ==> !WithinSteps(g, w, h, x, y, j)
    decreases maxDist - k
  {
    if !(WithinSteps(g, w, h, x, y, k) && (k == 0 || k <= maxDist)) && k < maxDist {
      ShortestFromIs(g, w, h, x, y, maxDist, k + 1);
    }
  }

  /** The distance field the search is meant to produce, cell by cell. */
  function DistanceField(g: Grid, w: int, h: int, maxDist: int): (r: IntField)
    requires Shaped(g, w, h) && maxDist < MaxInt32
    ensures IntShaped(r, w, h)
    ensures forall y, x :: 0 <= y < h && 0 <= x < w && r[y][x] != MaxInt32 ==>
      0 <= r[y][x] && (r[y][x] == 0 || r[y][x] <= maxDist) && WithinSteps(g, w, h, x, y, r[y][x])
    ensures forall y, x, j: nat :: 0 <= y < h && 0 <= x < w && j < r[y][x] && (j == 0 || j <= maxDist) ==>
      !WithinSteps(g, w, h, x, y, j)
  {
    var r := seq(h, y requires 0 <= y < h => seq(w, x requires 0 <= x < w => ShortestFrom(g, w, h, x, y, maxDist, 0)));
    forall y, x | 0 <= y < h && 0 <= x < w
      ensures r[y][x] == ShortestFrom(g, w, h, x, y, maxDist, 0)
    {
    }
    forall y, x | 0 <= y < h && 0 <= x < w {
      ShortestFromIs(g, w, h, x, y, maxDist, 0);
    }
    r
  }

  /** Soundness: a cell the search reached at distance d is d steps from a seed. */
  lemma {:induction false} ReachedWithin(g: Grid, f: IntField, w: int, h: int, maxDist: int, queue: seq<QueueEntry>, x: int, y: int, d: nat)
    requires Shaped(g, w, h) && IntShaped(f, w, h) && IsValidCoord(w, h, x, y)
    requires Reached(g, f, w, h, maxDist) && SeedsExact(g, f, w, h) && HasParents(f, w, h)
    requires f[y][x] == d && d != MaxInt32
    ensures WithinSteps(g, w, h, x, y, d)
    decreases d
  {
    assert g[y][x].inWorld;
    if d == 0 {
      assert SeedAt(g, f, w, h, x, y);
    } else {
      assert HasParentAt(f, w, h, x, y);
      var c :| c in Neighbors(w, h, x, y) && 0 <= c.y < h && 0 <= c.x < w && f[c.y][c.x] == d - 1;
      ReachedWithin(g, f, w, h, maxDist, queue, c.x, c.y, d - 1);
    }
  }

  /** Completeness: once every reached cell below MaxDist has its neighbours reached, a cell j <= MaxDist steps from a seed holds at most j. */
  lemma {:induction false} WithinReached(g: Grid, f: IntField, w: int, h: int, maxDist: int, queue: seq<QueueEntry>, x: int, y: int, j: nat)
    requires Shaped(g, w, h) && IntShaped(f, w, h) && SeedsExact(g, f, w, h) && IsValidCoord(w, h, x, y)
    requires Expanded(g, f, w, h, maxDist, queue, |queue|)
    requires WithinSteps(g, w, h, x, y, j) && (j == 0 || j <= maxDist)
    ensures f[y][x] != MaxInt32 && f[y][x] <= j
    decreases j
  {
    if IsEdgeSeed(g, w, h, x, y) {
      assert SeedAt(g, f, w, h, x, y);
    } else {
      var c := StepTowardSeed(g, w, h, x, y, j);
      WithinReached(g, f, w, h, maxDist, queue, c.x, c.y, j - 1);
      assert Coord(x, y) in Neighbors(w, h, c.x, c.y) by {
        NeighborsExactly(w, h, x, y, c);
        NeighborsExactly(w, h, c.x, c.y, Coord(x, y));
      }
      assert g[y][x].inWorld;
      DrainedClose(g, f, w, h, maxDist, queue, c.x, c.y, Coord(x, y));
    }
  }

  /** A cell that is not itself a seed but within j steps of one has a neighbour within j - 1 steps. */
  lemma StepTowardSeed(g: Grid, w: int, h: int, x: int, y: int, j: nat) returns (c: Coord)
    requires Shaped(g, w, h) && IsValidCoord(w, h, x, y)
    requires WithinSteps(g, w, h, x, y, j) && !IsEdgeSeed(g, w, h, x, y)
    ensures j > 0 && c in Neighbors(w, h, x, y) && IsValidCoord(w, h, c.x, c.y) && WithinSteps(g, w, h, c.x, c.y, j - 1)
  {
    c :| c in Neighbors(w, h, x, y) && IsValidCoord(w, h, c.x, c.y) && WithinSteps(g, w, h, c.x, c.y, j - 1);
  }

  /** After the search, an in-world neighbour of a reached cell below MaxDist is reached and at most one step further. */
  lemma DrainedClose(g: Grid, f: IntField, w: int, h: int, maxDist: int, queue: seq<QueueEntry>, x: int, y: int, n: Coord)
    requires Shaped(g, w, h) && IntShaped(f, w, h) && IsValidCoord(w, h, x, y)
    requires Expanded(g, f, w, h, maxDist, queue, |queue|)
    requires f[y][x] != MaxInt32 && f[y][x] < maxDist
    requires n in Neighbors(w, h, x, y) && IsValidCoord(w, h, n.x, n.y) && g[n.y][n.x].inWorld
    ensures f[n.y][n.x] != MaxInt32 && f[n.y][n.x] <= f[y][x] + 1
  {
    assert !Pending(queue, |queue|, x, y);
    assert NeighboursClose(g, f, w, h, x, y);
  }

  /** The drained search has produced exactly DistanceField. */
  lemma SearchResult(g: Grid, f: IntField, w: int, h: int, maxDist: int, queue: seq<QueueEntry>)
    requires BfsState(g, f, w, h, maxDist, queue) && Expanded(g, f, w, h, maxDist, queue, |queue|) && maxDist < MaxInt32
    ensures f == DistanceField(g, w, h, maxDist)
  {
    var r := DistanceField(g, w, h, maxDist);
    forall y, x | 0 <= y < h && 0 <= x < w
      ensures f[y][x] == r[y][x]
    {
      if f[y][x] != MaxInt32 {
        ReachedWithin(g, f, w, h, maxDist, queue, x, y, f[y][x]);
        if r[y][x] != MaxInt32 {
          WithinReached(g, f, w, h, maxDist, queue, x, y, r[y][x]);
        }
      } else if r[y][x] != MaxInt32 {
        WithinReached(g, f, w, h, maxDist, queue, x, y, r[y][x]);
      }
    }
    forall y | 0 <= y < h ensures f[y] == r[y] {
    }
  }
}
