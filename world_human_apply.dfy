/**
 * UpdateHumanLayer, step 3: the change list is applied in order to the
 * grid, each change reading the grid as the earlier changes left it.
 */
module HumanApply {
  import opened UnrealMath
  import opened WorldMorphingTypes
  import opened WorldGrid
  import opened HumanChanges

  /** The cells a change writes lie in the grid. */
  predicate Applicable(w: int, h: int, ch: HumanChange)
  {
    IsValidCoord(w, h, ch.x, ch.y) && (ch.kind == MigrateChange ==> IsValidCoord(w, h, ch.toX, ch.toY))
  }

  /**
   * One change: a state change with value 0 empties the cell (prosperity 0)
   * and one with value 1 settles it (prosperity 50); a prosperity change
   * sets the prosperity clamped to [0, 100]; a migration moves the
   * settlement, with its carried prosperity, only while the origin is still
   * Human and the destination still Empty.
   */
  function ApplyChange(g: Grid, w: int, h: int, ch: HumanChange): (r: Grid)
    requires Shaped(g, w, h) && Applicable(w, h, ch)
    ensures Shaped(r, w, h)
    ensures ch.kind == MigrateChange ==>
      (r != g <==> g[ch.y][ch.x].crystalState == Human && g[ch.toY][ch.toX].crystalState == Empty)
    ensures forall y, x ::
      (0 <= y < h && 0 <= x < w && Coord(x, y) != Coord(ch.x, ch.y)
       && (ch.kind != MigrateChange || Coord(x, y) != Coord(ch.toX, ch.toY))) ==> r[y][x] == g[y][x]
  {
    var cell := g[ch.y][ch.x];
    match ch.kind
    case StateChange =>
      if ch.value == 0.0 then Put(g, ch.x, ch.y, cell.(crystalState := Empty, prosperity := 0.0))
      else if ch.value == 1.0 then Put(g, ch.x, ch.y, cell.(crystalState := Human, prosperity := 50.0))
      else g
    case ProsperityChange =>
      Put(g, ch.x, ch.y, cell.(prosperity := Clamp(ch.value, 0.0, 100.0)))
    case MigrateChange =>
      if cell.crystalState == Human && g[ch.toY][ch.toX].crystalState == Empty then
        var moved := Put(g, ch.toX, ch.toY, g[ch.toY][ch.toX].(crystalState := Human, prosperity := ch.value));
        assert moved[ch.y][ch.x] == cell;
        var r := Put(moved, ch.x, ch.y, cell.(crystalState := Empty, prosperity := 0.0));
        assert r[ch.toY][ch.toX].crystalState == Human;
        r
      else g
  }

  /** The changes applied in list order. */
  function ApplyAll(g: Grid, w: int, h: int, cs: seq<HumanChange>): (r: Grid)
    requires Shaped(g, w, h) && forall ch :: ch in cs ==> Applicable(w, h, ch)
    ensures Shaped(r, w, h)
  {
    if cs == [] then g
    else
      var last := cs[|cs| - 1];
      assert last in cs;
      ApplyChange(ApplyAll(g, w, h, cs[..|cs| - 1]), w, h, last)
  }

  /** Step 3: the loop over Changes. */
  method ApplyChanges(g: Grid, w: int, h: int, cs: seq<HumanChange>) returns (r: Grid)
    requires Shaped(g, w, h) && forall ch :: ch in cs ==> Applicable(w, h, ch)
    ensures r == ApplyAll(g, w, h, cs)
  {
    r := g;
    for i := 0 to |cs|
      invariant Shaped(r, w, h)
      invariant r == ApplyAll(g, w, h, cs[..i])
    {
      assert cs[..i + 1][..i] == cs[..i];
      var ch := cs[i];
      assert ch in cs;
      var target := r[ch.y][ch.x];
      if ch.kind == StateChange {
        if ch.value == 0.0 {
          r := Put(r, ch.x, ch.y, target.(crystalState := Empty, prosperity := 0.0));
        } else if ch.value == 1.0 {
          r := Put(r, ch.x, ch.y, target.(crystalState := Human, prosperity := 50.0));
        }
      } else if ch.kind == ProsperityChange {
        r := Put(r, ch.x, ch.y, target.(prosperity := Clamp(ch.value, 0.0, 100.0)));
      } else {
        if target.crystalState == Human {
          var dest := r[ch.toY][ch.toX];
          if dest.crystalState == Empty {
            r := Put(r, ch.toX, ch.toY, dest.(crystalState := Human, prosperity := ch.value));
            r := Put(r, ch.x, ch.y, target.(crystalState := Empty, prosperity := 0.0));
          }
        }
      }
    }
    assert cs[..|cs|] == cs;
  }

  // ---------------------------------------------------------------------
  // What applying a sound list keeps.

  /** The human layer changes only a cell's state and prosperity. */
  predicate HumanOnly(a: Cell, b: Cell)
  {
    b == a.(crystalState := b.crystalState, prosperity := b.prosperity)
  }

  /**
   * Against the grid g0 the list was computed from: every cell has changed
   * at most its state and prosperity, and its state only to Empty or Human;
   * every Alpha cell of g0 is untouched; and every cell that has become a
   * settlement exists.
   */
  predicate Kept(g0: Grid, g: Grid, w: int, h: int)
    requires Shaped(g0, w, h) && Shaped(g, w, h)
  {
    forall y, x :: 0 <= y < h && 0 <= x < w ==>
      HumanOnly(g0[y][x], g[y][x])
      && g[y][x].crystalState in {g0[y][x].crystalState, Empty, Human}
      && (g0[y][x].crystalState == Alpha ==> g[y][x] == g0[y][x])
      && (g[y][x].crystalState == Human && g0[y][x].crystalState != Human ==> g[y][x].inWorld)
  }

  /** A sound change keeps what Kept says, and keeps prosperity in [0, 100] when it is tame. */
  lemma ApplyStep(g0: Grid, g: Grid, w: int, h: int, ch: HumanChange, tame: bool)
    requires Shaped(g0, w, h) && Shaped(g, w, h) && Respects(g0, w, h, ch) && (tame ==> Tame(ch))
    requires Kept(g0, g, w, h)
    ensures Kept(g0, ApplyChange(g, w, h, ch), w, h)
    ensures tame && ProsperityBounded(g) ==> ProsperityBounded(ApplyChange(g, w, h, ch))
  {
    var r := ApplyChange(g, w, h, ch);
    forall y, x | 0 <= y < h && 0 <= x < w
      ensures HumanOnly(g0[y][x], r[y][x])
      ensures r[y][x].crystalState in {g0[y][x].crystalState, Empty, Human}
      ensures g0[y][x].crystalState == Alpha ==> r[y][x] == g0[y][x]
      ensures r[y][x].crystalState == Human && g0[y][x].crystalState != Human ==> r[y][x].inWorld
      ensures tame && ProsperityBounded(g) ==> 0.0 <= r[y][x].prosperity <= 100.0
    {
      if ch.kind == MigrateChange && Coord(x, y) == Coord(ch.toX, ch.toY) && r != g {
        assert r[y][x] == g[y][x].(crystalState := Human, prosperity := ch.value);
      }
    }
  }

  /** Applying a list of sound changes, in order, keeps what Kept says, and bounded prosperity when the list is tame. */
  lemma {:induction false} ApplyAllKeeps(g: Grid, w: int, h: int, cs: seq<HumanChange>, tame: bool)
    requires Shaped(g, w, h) && forall ch :: ch in cs ==> Respects(g, w, h, ch) && (tame ==> Tame(ch))
    ensures forall ch :: ch in cs ==> Applicable(w, h, ch)
    ensures Kept(g, ApplyAll(g, w, h, cs), w, h)
    ensures tame && ProsperityBounded(g) ==> ProsperityBounded(ApplyAll(g, w, h, cs))
  {
    if cs != [] {
      var init := cs[..|cs| - 1];
      var last := cs[|cs| - 1];
      assert forall ch :: ch in init ==> ch in cs;
      assert last in cs;
      ApplyAllKeeps(g, w, h, init, tame);
      ApplyStep(g, ApplyAll(g, w, h, init), w, h, last, tame);
    }
  }

  /** Kept keeps the grid clean: a cell outside the world never becomes a settlement, and its mantle energy is untouched. */
  lemma KeptClean(g0: Grid, g: Grid, w: int, h: int)
    requires Shaped(g0, w, h) && Shaped(g, w, h) && Kept(g0, g, w, h) && Clean(g0)
    ensures Clean(g)
  {
    forall y, x | 0 <= y < h && 0 <= x < w && !g[y][x].inWorld
      ensures g[y][x].mantleEnergy == 0.0 && g[y][x].crystalState == Empty
    {
      assert HumanOnly(g0[y][x], g[y][x]);
    }
  }
}
