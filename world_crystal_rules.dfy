/**
 * What the transition step of UpdateCrystalLayer means: which cells change
 * state and why, which cells pay for an expansion, and what ends in each
 * cell's stored energy.
 */
module CrystalRules {
  import opened UnrealMath
  import opened Wrappers
  import opened WorldMorphingTypes
  import opened WorldGrid
  import opened CrystalLayer
  import opened CrystalTransition
  import opened CrystalUpdate

  /** The cells that grow from c during one transition scan, in raster order. */
  function Children(g: Grid, w: int, h: int, p: SimulationParams, d: CrystalDraws, c: Coord): (r: seq<Coord>)
    requires Shaped(g, w, h)
    ensures forall t :: t in r ==> IsValidCoord(w, h, t.x, t.y)
  {
    ChildrenBefore(g, w, h, p, Parents(g, w, h, p, d), c, h, 0)
  }

  /** The children of c are exactly the cells whose parent is c. */
  lemma ChildrenExactly(g: Grid, w: int, h: int, p: SimulationParams, d: CrystalDraws, c: Coord, t: Coord)
    requires Shaped(g, w, h) && IsValidCoord(w, h, c.x, c.y)
    ensures t in Children(g, w, h, p, d, c) <==> IsValidCoord(w, h, t.x, t.y) && Parent(g, w, h, p, d, t.x, t.y) == Some(c)
  {
    LinksBeforeMembers(g, w, h, p, Picks(Parents(g, w, h, p, d)), c, h, 0, t);
  }

  /** A cell that is not a live Alpha crystal, or stores less than ExpansionCost, is nobody's parent. */
  lemma NeverParent(g: Grid, w: int, h: int, p: SimulationParams, d: CrystalDraws, cx: int, cy: int, y: int, x: int)
    requires Shaped(g, w, h) && IsValidCoord(w, h, cx, cy) && 0 <= x <= w
    requires !LiveAlpha(g[cy][cx]) || g[cy][cx].storedEnergy < p.expansionCost
    ensures ChildrenBefore(g, w, h, p, Parents(g, w, h, p, d), Coord(cx, cy), y, x) == []
  {
    var t := Parents(g, w, h, p, d);
    forall ry, rx
      ensures !Linked(g, w, h, p, Picks(t), Coord(cx, cy), rx, ry)
    {
      if IsValidCoord(w, h, rx, ry) {
        assert t[ry][rx] == Parent(g, w, h, p, d, rx, ry);
      }
    }
    LinksNone(g, w, h, p, Picks(t), Coord(cx, cy), y, x);
  }

  /** ExpansionCost charged n times is n times ExpansionCost. */
  lemma {:induction false} ChargesIsProduct(cost: real, n: int)
    requires n >= 0
    ensures Charges(cost, n) == n as real * cost
    decreases n
  {
    if n > 0 {
      ChargesIsProduct(cost, n - 1);
      assert n as real * cost == (n - 1) as real * cost + cost;
    }
  }

  /** After the whole scan every cell has been visited, so its own write is in force: the buffer holds Buffered with the rule run and every child counted. */
  lemma PendingOwn(g: Grid, w: int, h: int, p: SimulationParams, d: CrystalDraws, cx: int, cy: int)
    requires Shaped(g, w, h) && IsValidCoord(w, h, cx, cy)
    ensures Pending(g, w, h, p, d, cx, cy)
         == Buffered(g[cy][cx].storedEnergy, OwnStored(g, w, h, p, d, cx, cy), true,
                     |Children(g, w, h, p, d, Coord(cx, cy))|,
                     |ChildrenBefore(g, w, h, p, Parents(g, w, h, p, d), Coord(cx, cy), cy, cx)|, p.expansionCost)
  {
    assert Before(cy, cx, h, 0);
  }

  /** Once the cell's own rule has run, the buffer holds its own value less the later charges, if it wrote one. */
  lemma BufferedAfterOwn(stored: real, own: Option<real>, n: int, k: int, cost: real)
    ensures Buffered(stored, own, true, n, k, cost)
         == if own.Some? then own.value - Charges(cost, n - k) else stored - Charges(cost, n)
  {
  }

  /**
   * A newly grown crystal starts with 5 stored energy: its own rule writes 5,
   * and an Empty cell has no children to pay for.
   */
  lemma NewCrystalStartsAtFive(g: Grid, w: int, h: int, p: SimulationParams, d: CrystalDraws, x: int, y: int)
    requires Shaped(g, w, h) && IsValidCoord(w, h, x, y)
    requires g[y][x].crystalState == Empty && NextState(g, w, h, p, d, x, y) == Alpha
    ensures Pending(g, w, h, p, d, x, y) == 5.0
    ensures TransitedCell(g, w, h, p, d, x, y).storedEnergy == 5.0
  {
    assert g[y][x].inWorld && Parent(g, w, h, p, d, x, y).Some?;
    assert OwnStored(g, w, h, p, d, x, y) == Some(5.0);
    PendingOwn(g, w, h, p, d, x, y);
    NeverParent(g, w, h, p, d, x, y, h, 0);
    NeverParent(g, w, h, p, d, x, y, y, x);
    BufferedAfterOwn(g[y][x].storedEnergy, Some(5.0), 0, 0, p.expansionCost);
  }

  /**
   * A crystal that stays Alpha pays ExpansionCost once for every cell that
   * grows from it in the same step, however many there are (Charges is that
   * many times ExpansionCost, by ChargesIsProduct); its children are exactly
   * the cells whose parent it is.
   */
  lemma SurvivorPaysPerChild(g: Grid, w: int, h: int, p: SimulationParams, d: CrystalDraws, x: int, y: int)
    requires Shaped(g, w, h) && IsValidCoord(w, h, x, y)
    requires g[y][x].crystalState == Alpha && NextState(g, w, h, p, d, x, y) == Alpha
    ensures Pending(g, w, h, p, d, x, y)
      == g[y][x].storedEnergy - Charges(p.expansionCost, |Children(g, w, h, p, d, Coord(x, y))|)
    ensures forall t :: t in Children(g, w, h, p, d, Coord(x, y)) <==>
      IsValidCoord(w, h, t.x, t.y) && Parent(g, w, h, p, d, t.x, t.y) == Some(Coord(x, y))
  {
    var kids := Children(g, w, h, p, d, Coord(x, y));
    var stored := g[y][x].storedEnergy;
    var cost := p.expansionCost;
    var charged := Charges(cost, |kids|);
    assert Pending(g, w, h, p, d, x, y) == stored - charged by {
      assert OwnStored(g, w, h, p, d, x, y) == None;
      PendingOwn(g, w, h, p, d, x, y);
    }
    forall t
      ensures t in kids <==> IsValidCoord(w, h, t.x, t.y) && Parent(g, w, h, p, d, t.x, t.y) == Some(Coord(x, y))
    {
      ChildrenExactly(g, w, h, p, d, Coord(x, y), t);
    }
  }

  /**
   * A crystal that hardens or dies has its buffer entry set to 0 at its own
   * visit; children visited later still charge it, so with a non-negative
   * ExpansionCost the buffer ends at or below 0 and the cell is left with
   * no stored energy.
   */
  lemma RetiredCrystalEmptied(g: Grid, w: int, h: int, p: SimulationParams, d: CrystalDraws, x: int, y: int)
    requires Shaped(g, w, h) && IsValidCoord(w, h, x, y)
    requires LiveAlpha(g[y][x]) && NextState(g, w, h, p, d, x, y) != Alpha
    requires p.expansionCost >= 0.0
    ensures Pending(g, w, h, p, d, x, y) <= 0.0
    ensures TransitedCell(g, w, h, p, d, x, y).storedEnergy == 0.0
  {
    PendingOwn(g, w, h, p, d, x, y);
  }

  /** A cell that neither grows, hardens, dies nor stays a live crystal keeps its stored energy: it has no rule write and no children. */
  lemma QuietCellKeepsStored(g: Grid, w: int, h: int, p: SimulationParams, d: CrystalDraws, x: int, y: int)
    requires Shaped(g, w, h) && IsValidCoord(w, h, x, y)
    requires !LiveAlpha(g[y][x]) && NextState(g, w, h, p, d, x, y) == g[y][x].crystalState
    ensures Pending(g, w, h, p, d, x, y) == g[y][x].storedEnergy
  {
    PendingOwn(g, w, h, p, d, x, y);
    NeverParent(g, w, h, p, d, x, y, h, 0);
  }

  /**
   * The transition rules: an Empty cell of the world grows into Alpha exactly
   * when its expansion draw fires and it has a live Alpha neighbour storing at
   * least ExpansionCost; an Alpha cell of the world dies back to Empty exactly
   * when it is isolated, and hardens to Beta exactly when it is not isolated
   * and stores nothing; no other cell changes state.
   */
  lemma TransitionRules(g: Grid, w: int, h: int, p: SimulationParams, d: CrystalDraws, x: int, y: int)
    requires Shaped(g, w, h) && IsValidCoord(w, h, x, y)
    ensures var c := g[y][x];
      var next := NextState(g, w, h, p, d, x, y);
      (c.inWorld && c.crystalState == Empty ==>
         (next == Alpha <==> d.expand(x, y) && exists n :: n in Neighbors(w, h, x, y) && IsValidCoord(w, h, n.x, n.y)
                                                && LiveAlpha(g[n.y][n.x]) && g[n.y][n.x].storedEnergy >= p.expansionCost))
      && (c.inWorld && c.crystalState == Empty ==> next in {Empty, Alpha})
      && (LiveAlpha(c) ==> (next == Empty <==> Isolated(g, w, h, p, x, y)))
      && (LiveAlpha(c) ==> (next == Beta <==> !Isolated(g, w, h, p, x, y) && c.storedEnergy <= 0.0))
      && (!c.inWorld || c.crystalState == Beta || c.crystalState == Human ==> next == c.crystalState)
  {
    var r := Parent(g, w, h, p, d, x, y);
    if g[y][x].inWorld && g[y][x].crystalState == Empty {
      assert NextState(g, w, h, p, d, x, y) == Alpha <==> r.Some?;
    }
  }

  /** A new crystal grows next to its parent, a live Alpha crystal that could afford ExpansionCost before the step. */
  lemma GrowsBesideParent(g: Grid, w: int, h: int, p: SimulationParams, d: CrystalDraws, x: int, y: int)
    requires Shaped(g, w, h) && IsValidCoord(w, h, x, y)
    requires g[y][x].crystalState == Empty && NextState(g, w, h, p, d, x, y) == Alpha
    ensures Parent(g, w, h, p, d, x, y).Some?
    ensures var q := Parent(g, w, h, p, d, x, y).value;
      Adjacent(q, Coord(x, y)) && LiveAlpha(g[q.y][q.x]) && g[q.y][q.x].storedEnergy >= p.expansionCost
      && Coord(x, y) in Children(g, w, h, p, d, q)
  {
    var q := Parent(g, w, h, p, d, x, y).value;
    ChildrenExactly(g, w, h, p, d, q, Coord(x, y));
  }
}
