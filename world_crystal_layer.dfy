/**
 * The rules of UpdateCrystalLayer cell by cell: what an Alpha crystal
 * absorbs, when one crystal shares with another, which neighbours the
 * transition step counts, and the state each cell moves to. The passes that
 * apply them are in CrystalSharing and CrystalTransition.
 */
module CrystalLayer {
  import opened UnrealMath
  import opened Wrappers
  import opened Vectors
  import opened WorldMorphingTypes
  import opened WorldGrid
  import MantleDiffusion

  /** A crystal that takes part in the energy economy: an existing Alpha cell. */
  predicate LiveAlpha(c: Cell)
  {
    c.inWorld && c.crystalState == Alpha
  }

  // ---------------------------------------------------------------------
  // 1. Absorption.

  /** A cell counts as absorbing when it takes more than this from the mantle. */
  const AbsorbingThreshold: real := 0.1

  /**
   * One cell after step 1: a live Alpha crystal takes MantleAbsorption of its
   * mantle energy (the mantle only pays when that exceeds 0.1), adds the storm
   * bonus, pays AlphaEnergyDemand and is capped at MaxCrystalEnergy; every
   * other cell only loses its absorbing flag and its input record.
   */
  function Absorbed(c: Cell, p: SimulationParams): (r: Cell)
    ensures r == c.(mantleEnergy := r.mantleEnergy, isAbsorbing := r.isAbsorbing,
                    crystalEnergy := r.crystalEnergy, storedEnergy := r.storedEnergy)
    ensures !LiveAlpha(c) ==> r == c.(isAbsorbing := false, crystalEnergy := 0.0)
    ensures r.isAbsorbing <==> LiveAlpha(c) && c.mantleEnergy * p.mantleAbsorption > AbsorbingThreshold
    ensures LiveAlpha(c) ==> r.storedEnergy <= p.maxCrystalEnergy
    ensures c.mantleEnergy >= 0.0 ==> 0.0 <= r.mantleEnergy
    ensures c.mantleEnergy >= 0.0 && 0.0 <= p.mantleAbsorption <= 1.0 ==>
      r.mantleEnergy + (if r.isAbsorbing then c.mantleEnergy * p.mantleAbsorption else 0.0) == c.mantleEnergy
  {
    if !LiveAlpha(c) then c.(isAbsorbing := false, crystalEnergy := 0.0)
    else
      var absorbed := c.mantleEnergy * p.mantleAbsorption;
      var taking := absorbed > AbsorbingThreshold;
      var input := absorbed + (if c.hasThunderstorm then p.thunderstormEnergy else 0.0);
      assert c.mantleEnergy >= 0.0 && 0.0 <= p.mantleAbsorption <= 1.0 ==> absorbed <= c.mantleEnergy by {
        if c.mantleEnergy >= 0.0 && 0.0 <= p.mantleAbsorption <= 1.0 {
          MulAtMost(c.mantleEnergy, p.mantleAbsorption);
        }
      }
      c.(mantleEnergy := if taking then Max(0.0, c.mantleEnergy - absorbed) else c.mantleEnergy,
         isAbsorbing := taking,
         crystalEnergy := input,
         storedEnergy := Min(c.storedEnergy + (input - p.alphaEnergyDemand), p.maxCrystalEnergy))
  }

  lemma MulAtMost(a: real, f: real)
    requires a >= 0.0 && 0.0 <= f <= 1.0
    ensures a * f <= a
  {
    assert a - a * f == a * (1.0 - f);
  }

  /** Step 1: the raster pass over every cell. */
  method AbsorbPass(g: Grid, w: int, h: int, p: SimulationParams) returns (r: Grid)
    requires Shaped(g, w, h)
    ensures Shaped(r, w, h)
    ensures forall y, x :: 0 <= y < h && 0 <= x < w ==> r[y][x] == Absorbed(g[y][x], p)
  {
    r := g;
    var y := 0;
    while y < h
      invariant 0 <= y <= h && Shaped(r, w, h)
      invariant forall yy, xx :: 0 <= yy < h && 0 <= xx < w ==>
        r[yy][xx] == if yy < y then Absorbed(g[yy][xx], p) else g[yy][xx]
    {
      r := AbsorbRow(g, r, w, h, p, y);
      y := y + 1;
    }
  }

  /** One row of the pass, left to right. */
  method AbsorbRow(g: Grid, r: Grid, w: int, h: int, p: SimulationParams, y: int) returns (r': Grid)
    requires Shaped(g, w, h) && Shaped(r, w, h) && 0 <= y < h
    requires forall yy, xx :: 0 <= yy < h && 0 <= xx < w ==>
      r[yy][xx] == if yy < y then Absorbed(g[yy][xx], p) else g[yy][xx]
    ensures Shaped(r', w, h)
    ensures forall yy, xx :: 0 <= yy < h && 0 <= xx < w ==>
      r'[yy][xx] == if yy < y + 1 then Absorbed(g[yy][xx], p) else g[yy][xx]
  {
    r' := r;
    var x := 0;
    while x < w
      invariant 0 <= x <= w && Shaped(r', w, h)
      invariant forall yy, xx :: 0 <= yy < h && 0 <= xx < w ==>
        r'[yy][xx] == if Before(yy, xx, y, x) then Absorbed(g[yy][xx], p) else g[yy][xx]
    {
      var cell := AbsorbCell(r'[y][x], p);
      r' := Put(r', x, y, cell);
      x := x + 1;
    }
  }

  /** The body of the pass for one cell. */
  method AbsorbCell(c: Cell, p: SimulationParams) returns (cell: Cell)
    ensures cell == Absorbed(c, p)
  {
    cell := c;
    if !cell.inWorld || cell.crystalState != Alpha {
      cell := cell.(isAbsorbing := false, crystalEnergy := 0.0);
    } else {
      var input := 0.0;
      var absorbed := cell.mantleEnergy * p.mantleAbsorption;
      input := input + absorbed;
      if absorbed > AbsorbingThreshold {
        cell := cell.(mantleEnergy := Max(0.0, cell.mantleEnergy - absorbed), isAbsorbing := true);
      } else {
        cell := cell.(isAbsorbing := false);
      }
      if cell.hasThunderstorm {
        input := input + p.thunderstormEnergy;
      }
      cell := cell.(crystalEnergy := input);
      var net := input - p.alphaEnergyDemand;
      cell := cell.(storedEnergy := cell.storedEnergy + net);
      cell := cell.(storedEnergy := Min(cell.storedEnergy, p.maxCrystalEnergy));
    }
  }

  // ---------------------------------------------------------------------
  // 2. Energy sharing.

  /** The flow a receiver would take from a richer giver: EnergySharingRate of the difference. */
  function ShareFlow(receiver: Cell, giver: Cell, p: SimulationParams): real
  {
    (giver.storedEnergy - receiver.storedEnergy) * p.energySharingRate
  }

  /** The ceiling a receiver may not be lifted above by one flow. */
  function SharingLimit(p: SimulationParams): real
  {
    p.maxCrystalEnergy * p.energySharingLimit
  }

  /**
   * Whether a receiver takes energy from a neighbouring giver: both are live
   * Alpha crystals, the giver stores more, and the flow does not lift the
   * receiver above the sharing limit.
   */
  predicate Shares(receiver: Cell, giver: Cell, p: SimulationParams)
  {
    LiveAlpha(receiver) && LiveAlpha(giver)
    && giver.storedEnergy - receiver.storedEnergy > 0.0
    && receiver.storedEnergy + ShareFlow(receiver, giver, p) <= SharingLimit(p)
  }

  /** What the receiver books from one giver: the flow when it shares, nothing otherwise. */
  function Amount(receiver: Cell, giver: Cell, p: SimulationParams): real
  {
    if Shares(receiver, giver, p) then ShareFlow(receiver, giver, p) else 0.0
  }

  /** The record logged on the giver: the receiver's own X and Y fields and the flow. */
  function FlowRecord(receiver: Cell, giver: Cell, p: SimulationParams): Vec3
  {
    Vec3(receiver.x as real, receiver.y as real, ShareFlow(receiver, giver, p))
  }

  /** A single flow never lifts its receiver above the sharing limit. */
  lemma ShareWithinLimit(receiver: Cell, giver: Cell, p: SimulationParams)
    requires Shares(receiver, giver, p)
    ensures receiver.storedEnergy + Amount(receiver, giver, p) <= SharingLimit(p)
  {
  }

  /** With a rate in [0, 1] a flow runs downhill and does not overshoot the giver. */
  lemma ShareDownhill(receiver: Cell, giver: Cell, p: SimulationParams)
    requires giver.storedEnergy > receiver.storedEnergy && 0.0 <= p.energySharingRate <= 1.0
    ensures 0.0 <= ShareFlow(receiver, giver, p)
    ensures receiver.storedEnergy + ShareFlow(receiver, giver, p) <= giver.storedEnergy
  {
    var d := giver.storedEnergy - receiver.storedEnergy;
    var flow := ShareFlow(receiver, giver, p);
    assert flow == d * p.energySharingRate;
    MulNonNegative(d, p.energySharingRate);
    MulAtMost(d, p.energySharingRate);
    assert flow <= d;
  }

  /** Only live Alpha crystals take part in sharing. */
  lemma ShareOnlyAlpha(receiver: Cell, giver: Cell, p: SimulationParams)
    requires !LiveAlpha(receiver) || !LiveAlpha(giver)
    ensures Amount(receiver, giver, p) == 0.0 && !Shares(receiver, giver, p)
  {
  }

  lemma MulNonNegative(a: real, b: real)
    requires a >= 0.0 && b >= 0.0
    ensures a * b >= 0.0
  {
  }

  /** The amounts a receiver books from the givers among ns, in order. */
  function GainedAmong(g: Grid, p: SimulationParams, rc: Coord, ns: seq<Coord>): real
    requires 0 <= rc.y < |g| && 0 <= rc.x < |g[rc.y]|
    requires forall c :: c in ns ==> 0 <= c.y < |g| && 0 <= c.x < |g[c.y]|
  {
    if ns == [] then 0.0
    else
      var n := ns[|ns| - 1];
      GainedAmong(g, p, rc, ns[..|ns| - 1]) + Amount(g[rc.y][rc.x], g[n.y][n.x], p)
  }

  /** Everything a cell receives from its neighbours during sharing. */
  function Gained(g: Grid, w: int, h: int, p: SimulationParams, x: int, y: int): real
    requires Shaped(g, w, h) && IsValidCoord(w, h, x, y)
  {
    NeighborsInGrid(g, w, h, x, y);
    GainedAmong(g, p, Coord(x, y), Neighbors(w, h, x, y))
  }

  /** A cell that is not a live Alpha crystal receives nothing. */
  lemma {:induction false} GainedAmongNone(g: Grid, p: SimulationParams, rc: Coord, ns: seq<Coord>)
    requires 0 <= rc.y < |g| && 0 <= rc.x < |g[rc.y]|
    requires forall c :: c in ns ==> 0 <= c.y < |g| && 0 <= c.x < |g[c.y]|
    requires !LiveAlpha(g[rc.y][rc.x])
    ensures GainedAmong(g, p, rc, ns) == 0.0
  {
    if ns != [] {
      GainedAmongNone(g, p, rc, ns[..|ns| - 1]);
    }
  }

  /** The sum of the flows a giver hands to the receivers listed. */
  function Taken(g: Grid, p: SimulationParams, gc: Coord, takers: seq<Coord>): real
    requires 0 <= gc.y < |g| && 0 <= gc.x < |g[gc.y]|
    requires forall c :: c in takers ==> 0 <= c.y < |g| && 0 <= c.x < |g[c.y]|
  {
    if takers == [] then 0.0
    else
      var t := takers[|takers| - 1];
      Taken(g, p, gc, takers[..|takers| - 1]) + ShareFlow(g[t.y][t.x], g[gc.y][gc.x], p)
  }

  /** The records a giver logs for the receivers listed, in order. */
  function Records(g: Grid, p: SimulationParams, gc: Coord, takers: seq<Coord>): seq<Vec3>
    requires 0 <= gc.y < |g| && 0 <= gc.x < |g[gc.y]|
    requires forall c :: c in takers ==> 0 <= c.y < |g| && 0 <= c.x < |g[c.y]|
  {
    if takers == [] then []
    else
      var t := takers[|takers| - 1];
      Records(g, p, gc, takers[..|takers| - 1]) + [FlowRecord(g[t.y][t.x], g[gc.y][gc.x], p)]
  }

  // ---------------------------------------------------------------------
  // Raster-order links. Both the sharing log and the expansion charges are
  // built cell by cell in raster order; LinksBefore lists, in that order, the
  // cells before (y, x) that are linked to a given cell.

  /** The random draws of the transition step, per Empty cell: FRand() < 0.3 and the RandRange index. */
  datatype CrystalDraws = CrystalDraws(expand: (int, int) -> bool, pick: (int, int) -> int)

  /** Each cell's Parent, indexed [Y][X]. */
  type ParentTable = seq<seq<Option<Coord>>>

  /** Takes: the cell at (rx, ry) takes energy from c. Picks: the table says the cell at (rx, ry) grows from parent c. */
  datatype Link = Takes | Picks(parents: ParentTable)

  predicate Linked(g: Grid, w: int, h: int, p: SimulationParams, link: Link, c: Coord, rx: int, ry: int)
    requires Shaped(g, w, h)
  {
    IsValidCoord(w, h, rx, ry) && IsValidCoord(w, h, c.x, c.y) &&
    match link
    case Takes => c in Neighbors(w, h, rx, ry) && Shares(g[ry][rx], g[c.y][c.x], p)
    case Picks(t) => 0 <= ry < |t| && 0 <= rx < |t[ry]| && t[ry][rx] == Some(c)
  }

  function RowLinks(g: Grid, w: int, h: int, p: SimulationParams, link: Link, c: Coord, y: int, x: int): (r: seq<Coord>)
    requires Shaped(g, w, h)
    ensures forall t :: t in r ==> IsValidCoord(w, h, t.x, t.y)
    decreases x
  {
    if x <= 0 then []
    else RowLinks(g, w, h, p, link, c, y, x - 1) + (if Linked(g, w, h, p, link, c, x - 1, y) then [Coord(x - 1, y)] else [])
  }

  function LinksAbove(g: Grid, w: int, h: int, p: SimulationParams, link: Link, c: Coord, y: int): (r: seq<Coord>)
    requires Shaped(g, w, h)
    ensures forall t :: t in r ==> IsValidCoord(w, h, t.x, t.y)
    decreases y
  {
    if y <= 0 then [] else LinksAbove(g, w, h, p, link, c, y - 1) + RowLinks(g, w, h, p, link, c, y - 1, w)
  }

  /** The cells before (y, x) in raster order linked to c, in that order. */
  function LinksBefore(g: Grid, w: int, h: int, p: SimulationParams, link: Link, c: Coord, y: int, x: int): (r: seq<Coord>)
    requires Shaped(g, w, h)
    ensures forall t :: t in r ==> IsValidCoord(w, h, t.x, t.y)
  {
    LinksAbove(g, w, h, p, link, c, y) + RowLinks(g, w, h, p, link, c, y, x)
  }

  /** All the cells linked to c over a whole pass. */
  function AllLinks(g: Grid, w: int, h: int, p: SimulationParams, link: Link, c: Coord): (r: seq<Coord>)
    requires Shaped(g, w, h)
    ensures forall t :: t in r ==> IsValidCoord(w, h, t.x, t.y)
  {
    LinksBefore(g, w, h, p, link, c, h, 0)
  }

  lemma {:induction false} RowLinksMembers(g: Grid, w: int, h: int, p: SimulationParams, link: Link, c: Coord, y: int, x: int, t: Coord)
    requires Shaped(g, w, h)
    ensures t in RowLinks(g, w, h, p, link, c, y, x) <==> t.y == y && 0 <= t.x < x && Linked(g, w, h, p, link, c, t.x, t.y)
    decreases x
  {
    if x > 0 {
      RowLinksMembers(g, w, h, p, link, c, y, x - 1, t);
    }
  }

  lemma LinksAboveMembers(g: Grid, w: int, h: int, p: SimulationParams, link: Link, c: Coord, y: int, t: Coord)
    requires Shaped(g, w, h)
    ensures t in LinksAbove(g, w, h, p, link, c, y) <==> t.y < y && Linked(g, w, h, p, link, c, t.x, t.y)
  {
    if t in LinksAbove(g, w, h, p, link, c, y) {
      LinksAboveSound(g, w, h, p, link, c, y, t);
    }
    if t.y < y && Linked(g, w, h, p, link, c, t.x, t.y) {
      LinksAboveComplete(g, w, h, p, link, c, y, t);
    }
  }

  lemma {:induction false} LinksAboveSound(g: Grid, w: int, h: int, p: SimulationParams, link: Link, c: Coord, y: int, t: Coord)
    requires Shaped(g, w, h) && t in LinksAbove(g, w, h, p, link, c, y)
    ensures t.y < y && Linked(g, w, h, p, link, c, t.x, t.y)
    decreases y
  {
    var above, row := LinksAbove(g, w, h, p, link, c, y - 1), RowLinks(g, w, h, p, link, c, y - 1, w);
    assert LinksAbove(g, w, h, p, link, c, y) == above + row;
    if t in above {
      LinksAboveSound(g, w, h, p, link, c, y - 1, t);
    } else {
      RowLinksMembers(g, w, h, p, link, c, y - 1, w, t);
    }
  }

  lemma {:induction false} LinksAboveComplete(g: Grid, w: int, h: int, p: SimulationParams, link: Link, c: Coord, y: int, t: Coord)
    requires Shaped(g, w, h) && t.y < y && Linked(g, w, h, p, link, c, t.x, t.y)
    ensures t in LinksAbove(g, w, h, p, link, c, y)
    decreases y
  {
    assert IsValidCoord(w, h, t.x, t.y);
    if t.y < y - 1 {
      LinksAboveComplete(g, w, h, p, link, c, y - 1, t);
      AboveGrows(g, w, h, p, link, c, y, t);
    } else {
      RowLinksMembers(g, w, h, p, link, c, y - 1, w, t);
      RowJoins(g, w, h, p, link, c, y, t);
    }
  }

  lemma AboveGrows(g: Grid, w: int, h: int, p: SimulationParams, link: Link, c: Coord, y: int, t: Coord)
    requires Shaped(g, w, h) && y > 0 && t in LinksAbove(g, w, h, p, link, c, y - 1)
    ensures t in LinksAbove(g, w, h, p, link, c, y)
  {
    assert LinksAbove(g, w, h, p, link, c, y) == LinksAbove(g, w, h, p, link, c, y - 1) + RowLinks(g, w, h, p, link, c, y - 1, w);
  }

  lemma RowJoins(g: Grid, w: int, h: int, p: SimulationParams, link: Link, c: Coord, y: int, t: Coord)
    requires Shaped(g, w, h) && y > 0 && t in RowLinks(g, w, h, p, link, c, y - 1, w)
    ensures t in LinksAbove(g, w, h, p, link, c, y)
  {
    assert LinksAbove(g, w, h, p, link, c, y) == LinksAbove(g, w, h, p, link, c, y - 1) + RowLinks(g, w, h, p, link, c, y - 1, w);
  }

  /** The links before (y, x) are exactly the linked cells that come before it. */
  lemma LinksBeforeMembers(g: Grid, w: int, h: int, p: SimulationParams, link: Link, c: Coord, y: int, x: int, t: Coord)
    requires Shaped(g, w, h) && 0 <= x <= w
    ensures t in LinksBefore(g, w, h, p, link, c, y, x) <==> Before(t.y, t.x, y, x) && Linked(g, w, h, p, link, c, t.x, t.y)
  {
    LinksAboveMembers(g, w, h, p, link, c, y, t);
    RowLinksMembers(g, w, h, p, link, c, y, x, t);
  }

  /** Nothing is linked to a cell that no cell can link to. */
  lemma LinksNone(g: Grid, w: int, h: int, p: SimulationParams, link: Link, c: Coord, y: int, x: int)
    requires Shaped(g, w, h) && 0 <= x <= w
    requires forall ry, rx :: !Linked(g, w, h, p, link, c, rx, ry)
    ensures LinksBefore(g, w, h, p, link, c, y, x) == []
  {
    var l := LinksBefore(g, w, h, p, link, c, y, x);
    if l != [] {
      LinksBeforeMembers(g, w, h, p, link, c, y, x, l[0]);
    }
  }

  /** Moving one cell on in the scan adds that cell when it is linked. */
  lemma LinksStep(g: Grid, w: int, h: int, p: SimulationParams, link: Link, c: Coord, y: int, x: int)
    requires Shaped(g, w, h) && 0 <= x < w
    ensures LinksBefore(g, w, h, p, link, c, y, x + 1)
         == LinksBefore(g, w, h, p, link, c, y, x) + (if Linked(g, w, h, p, link, c, x, y) then [Coord(x, y)] else [])
  {
  }

  /** The end of one row is the start of the next. */
  lemma LinksNextRow(g: Grid, w: int, h: int, p: SimulationParams, link: Link, c: Coord, y: int)
    requires Shaped(g, w, h) && 0 <= y
    ensures LinksBefore(g, w, h, p, link, c, y + 1, 0) == LinksBefore(g, w, h, p, link, c, y, w)
  {
    assert LinksAbove(g, w, h, p, link, c, y + 1) == LinksAbove(g, w, h, p, link, c, y) + RowLinks(g, w, h, p, link, c, y, w);
  }

  /** The scan only grows the list: an earlier position's links are a prefix of a later one's. */
  lemma {:induction false} LinksGrow(g: Grid, w: int, h: int, p: SimulationParams, link: Link, c: Coord, y0: int, x0: int, y: int, x: int)
    requires Shaped(g, w, h) && 0 <= x0 <= w && 0 <= x <= w && 0 <= y0
    requires Before(y0, x0, y, x) || (y0 == y && x0 == x)
    ensures LinksBefore(g, w, h, p, link, c, y0, x0) <= LinksBefore(g, w, h, p, link, c, y, x)
    decreases y, x
  {
    var a := LinksBefore(g, w, h, p, link, c, y0, x0);
    if y0 == y && x0 == x {
      PrefixRefl(a);
    } else if x > 0 {
      assert Before(y0, x0, y, x - 1) || (y0 == y && x0 == x - 1);
      LinksGrow(g, w, h, p, link, c, y0, x0, y, x - 1);
      PrefixAlongRow(g, w, h, p, link, c, a, y, x);
    } else {
      assert y0 < y && (Before(y0, x0, y - 1, w) || (y0 == y - 1 && x0 == w));
      LinksGrow(g, w, h, p, link, c, y0, x0, y - 1, w);
      PrefixNextRow(g, w, h, p, link, c, a, y, x);
    }
  }

  /** A prefix of the links before the end of row y - 1 is a prefix of those before (y, 0). */
  lemma PrefixNextRow(g: Grid, w: int, h: int, p: SimulationParams, link: Link, c: Coord, a: seq<Coord>, y: int, x: int)
    requires Shaped(g, w, h) && 0 < y && x == 0
    requires a <= LinksBefore(g, w, h, p, link, c, y - 1, w)
    ensures a <= LinksBefore(g, w, h, p, link, c, y, x)
  {
    LinksNextRow(g, w, h, p, link, c, y - 1);
  }

  lemma PrefixRefl(a: seq<Coord>)
    ensures a <= a
  {
    assert a[..|a|] == a;
  }

  /** A prefix of the links before (y, x - 1) is a prefix of those before (y, x). */
  lemma PrefixAlongRow(g: Grid, w: int, h: int, p: SimulationParams, link: Link, c: Coord, a: seq<Coord>, y: int, x: int)
    requires Shaped(g, w, h) && 0 < x <= w
    requires a <= LinksBefore(g, w, h, p, link, c, y, x - 1)
    ensures a <= LinksBefore(g, w, h, p, link, c, y, x)
  {
    LinksStep(g, w, h, p, link, c, y, x - 1);
    PrefixExtend(a, LinksBefore(g, w, h, p, link, c, y, x - 1),
                 if Linked(g, w, h, p, link, c, x - 1, y) then [Coord(x - 1, y)] else []);
  }

  /** A prefix stays a prefix when the longer list grows. */
  lemma PrefixExtend(a: seq<Coord>, b: seq<Coord>, e: seq<Coord>)
    requires a <= b
    ensures a <= b + e
  {
    assert (b + e)[..|b|] == b;
  }

  // ---------------------------------------------------------------------
  // 3. The neighbour census of the transition step.

  /** The lists the transition step builds: AlphaNeighbors, BetaNeighbors, and RichNeighbors (taken from the Alpha ones). */
  datatype Kind = AlphaKind | BetaKind | RichKind

  predicate IsKind(c: Cell, k: Kind, p: SimulationParams)
  {
    match k
    case AlphaKind => LiveAlpha(c)
    case BetaKind => c.inWorld && c.crystalState == Beta
    case RichKind => c.storedEnergy >= p.expansionCost
  }

  /** The coordinates among ns whose cells are of kind k, in the order of ns. */
  function Among(g: Grid, ns: seq<Coord>, k: Kind, p: SimulationParams): (r: seq<Coord>)
    requires forall c :: c in ns ==> 0 <= c.y < |g| && 0 <= c.x < |g[c.y]|
    ensures forall c :: c in r <==> c in ns && IsKind(g[c.y][c.x], k, p)
    ensures |r| <= |ns|
  {
    if ns == [] then []
    else
      var c := ns[|ns| - 1];
      Among(g, ns[..|ns| - 1], k, p) + (if IsKind(g[c.y][c.x], k, p) then [c] else [])
  }

  /** RichNeighbors: the live Alpha neighbours storing at least ExpansionCost. */
  function Rich(g: Grid, w: int, h: int, p: SimulationParams, x: int, y: int): (r: seq<Coord>)
    requires Shaped(g, w, h)
    ensures forall c :: c in r <==>
      c in Neighbors(w, h, x, y) && IsValidCoord(w, h, c.x, c.y)
      && LiveAlpha(g[c.y][c.x]) && g[c.y][c.x].storedEnergy >= p.expansionCost
    ensures forall c :: c in r ==> Adjacent(c, Coord(x, y))
  {
    NeighborsInGrid(g, w, h, x, y);
    NeighborsValid(w, h, x, y);
    Among(g, Among(g, Neighbors(w, h, x, y), AlphaKind, p), RichKind, p)
  }

  /**
   * The parent an Empty cell grows from: when it has a rich neighbour and the
   * FRand() < 0.3 draw fires, the rich neighbour the RandRange draw picks.
   */
  function Parent(g: Grid, w: int, h: int, p: SimulationParams, d: CrystalDraws, x: int, y: int): (r: Option<Coord>)
    requires Shaped(g, w, h)
    ensures r.Some? ==>
      IsValidCoord(w, h, x, y) && g[y][x].inWorld && g[y][x].crystalState == Empty && d.expand(x, y)
      && r.value in Neighbors(w, h, x, y) && IsValidCoord(w, h, r.value.x, r.value.y) && Adjacent(r.value, Coord(x, y))
      && LiveAlpha(g[r.value.y][r.value.x]) && g[r.value.y][r.value.x].storedEnergy >= p.expansionCost
    ensures r.None? <==>
      !(IsValidCoord(w, h, x, y) && g[y][x].inWorld && g[y][x].crystalState == Empty && d.expand(x, y)
        && exists c :: c in Neighbors(w, h, x, y) && IsValidCoord(w, h, c.x, c.y)
                       && LiveAlpha(g[c.y][c.x]) && g[c.y][c.x].storedEnergy >= p.expansionCost)
  {
    if !IsValidCoord(w, h, x, y) || !g[y][x].inWorld || g[y][x].crystalState != Empty then None
    else
      var rich := Rich(g, w, h, p, x, y);
      if |rich| > 0 && d.expand(x, y) then Some(rich[d.pick(x, y) % |rich|]) else None
  }

  /** The parent table of the whole grid. */
  function Parents(g: Grid, w: int, h: int, p: SimulationParams, d: CrystalDraws): (t: ParentTable)
    requires Shaped(g, w, h)
    ensures |t| == h && forall y :: 0 <= y < h ==> |t[y]| == w
    ensures forall y, x :: 0 <= y < h && 0 <= x < w ==> t[y][x] == Parent(g, w, h, p, d, x, y)
  {
    seq(h, y requires 0 <= y < h => seq(w, x requires 0 <= x < w => Parent(g, w, h, p, d, x, y)))
  }

  /** Rule 3's test: no Alpha neighbour, fewer than two Beta neighbours, and less than 5 stored. */
  predicate Isolated(g: Grid, w: int, h: int, p: SimulationParams, x: int, y: int)
    requires Shaped(g, w, h) && IsValidCoord(w, h, x, y)
  {
    NeighborsInGrid(g, w, h, x, y);
    var ns := Neighbors(w, h, x, y);
    |Among(g, ns, AlphaKind, p)| == 0 && |Among(g, ns, BetaKind, p)| < 2 && g[y][x].storedEnergy < 5.0
  }

  /**
   * The state a cell moves to: an Empty cell becomes Alpha when it has a
   * parent; an Alpha cell hardens to Beta at no stored energy and dies back
   * to Empty when isolated (the later rule wins); Beta, Human and cells
   * outside the world keep their state.
   */
  function NextState(g: Grid, w: int, h: int, p: SimulationParams, d: CrystalDraws, x: int, y: int): CrystalType
    requires Shaped(g, w, h) && IsValidCoord(w, h, x, y)
  {
    var c := g[y][x];
    if !c.inWorld then c.crystalState
    else match c.crystalState
      case Empty => if Parent(g, w, h, p, d, x, y).Some? then Alpha else Empty
      case Alpha => if Isolated(g, w, h, p, x, y) then Empty else if c.storedEnergy <= 0.0 then Beta else Alpha
      case _ => c.crystalState
  }

  /** What a cell's own step writes into its NextStoredEnergy entry, if anything: 5 for a new crystal, 0 for one that hardens or dies. */
  function OwnStored(g: Grid, w: int, h: int, p: SimulationParams, d: CrystalDraws, x: int, y: int): Option<real>
    requires Shaped(g, w, h) && IsValidCoord(w, h, x, y)
  {
    var c := g[y][x];
    if !c.inWorld then None
    else match c.crystalState
      case Empty => if Parent(g, w, h, p, d, x, y).Some? then Some(5.0) else None
      case Alpha => if Isolated(g, w, h, p, x, y) || c.storedEnergy <= 0.0 then Some(0.0) else None
      case _ => None
  }
}
