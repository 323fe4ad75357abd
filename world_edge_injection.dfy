/** Edge energy injection of UpdateMantleLayer: the supply density and the band of cells that receive it. */
module EdgeInjection {
  import opened UnrealMath
  import opened WorldMorphingTypes
  import opened WorldGrid
  import opened EdgeSupply
  import opened EdgeDistance

  /** The angular distance GetDensity uses: |a - b|, folded once through 2π when above π. */
  function AngularDistance(a: real, b: real): real
  {
    var diff := Abs(a - b);
    if diff > Pi then TwoPi - diff else diff
  }

  /** Two angles in [0, 2π] are at most π apart, whichever is given first. */
  lemma AngularDistanceRange(a: real, b: real)
    requires 0.0 <= a <= TwoPi && 0.0 <= b <= TwoPi
    ensures 0.0 <= AngularDistance(a, b) <= Pi
    ensures AngularDistance(a, b) == AngularDistance(b, a)
    ensures AngularDistance(a, b) == 0.0 <==> a == b || Abs(a - b) == TwoPi
  {
  }

  /** The width of every supply point's bump: EdgeGenerationWidth * 0.15. */
  function Sigma(p: SimulationParams): real
  {
    p.edgeGenerationWidth as real * 0.15
  }

  /** The supply density at an angle: one Gaussian bump per supply point, summed in list order. */
  function Density(angle: real, points: seq<SupplyPoint>, p: SimulationParams, m: MathFns): real
  {
    if points == [] then 0.0
    else Density(angle, points[..|points| - 1], p, m)
         + m.gaussian(AngularDistance(angle, points[|points| - 1].angle), Sigma(p))
  }

  /** With a non-negative falloff, the density is non-negative and each point adds its bump. */
  lemma {:induction false} DensityNonNegative(angle: real, points: seq<SupplyPoint>, p: SimulationParams, m: MathFns)
    requires forall d, s :: m.gaussian(d, s) >= 0.0
    ensures Density(angle, points, p, m) >= 0.0
    ensures forall i :: 0 <= i < |points| ==>
      Density(angle, points, p, m) >= m.gaussian(AngularDistance(angle, points[i].angle), Sigma(p))
  {
    if points != [] {
      var init := points[..|points| - 1];
      DensityNonNegative(angle, init, p, m);
      forall i | 0 <= i < |points| - 1
        ensures Density(angle, points, p, m) >= m.gaussian(AngularDistance(angle, points[i].angle), Sigma(p))
      {
        assert points[i] == init[i];
      }
    }
  }

  /** GetDensity: the loop over EdgeSupplyPoints. */
  method GetDensity(angle: real, points: seq<SupplyPoint>, p: SimulationParams, m: MathFns) returns (density: real)
    ensures density == Density(angle, points, p, m)
  {
    density := 0.0;
    var i := 0;
    while i < |points|
      invariant 0 <= i <= |points|
      invariant density == Density(angle, points[..i], p, m)
    {
      var diff := Abs(angle - points[i].angle);
      if diff > Pi { diff := TwoPi - diff; }
      density := density + m.gaussian(diff, Sigma(p));
      assert points[..i + 1][..i] == points[..i];
      i := i + 1;
    }
    assert points[..i] == points;
  }

  /** The polar angle of a cell around the grid centre, moved into [0, 2π) when atan2 is negative. */
  function EdgeAngle(w: int, h: int, x: int, y: int, m: MathFns): real
  {
    var a := m.atan2(y as real - h as real / 2.0, x as real - w as real / 2.0);
    if a < 0.0 then a + TwoPi else a
  }

  /** Whether a distance falls in the generation band [Offset, Offset + Width). */
  predicate InBand(d: int, p: SimulationParams)
  {
    p.edgeGenerationOffset <= d < p.edgeGenerationOffset + p.edgeGenerationWidth
  }

  /** One cell after injection. */
  function Injected(c: Cell, d: int, angle: real, points: seq<SupplyPoint>, p: SimulationParams, m: MathFns): Cell
  {
    if c.inWorld && InBand(d, p)
    then c.(mantleEnergy := c.mantleEnergy + p.edgeGenerationEnergy * Density(angle, points, p, m))
    else c
  }

  /** The raster pass that adds EdgeGenerationEnergy times the density to every in-world cell in the band. */
  method InjectEdgeEnergy(g: Grid, w: int, h: int, dist: IntField, points: seq<SupplyPoint>,
                          p: SimulationParams, m: MathFns) returns (r: Grid)
    requires Shaped(g, w, h) && IntShaped(dist, w, h)
    ensures Shaped(r, w, h)
    ensures forall y, x :: 0 <= y < h && 0 <= x < w ==>
      r[y][x] == Injected(g[y][x], dist[y][x], EdgeAngle(w, h, x, y, m), points, p, m)
  {
    r := g;
    var y := 0;
    while y < h
      invariant 0 <= y <= h && Shaped(r, w, h)
      invariant forall yy, xx :: 0 <= yy < h && 0 <= xx < w ==>
        r[yy][xx] == if yy < y then Injected(g[yy][xx], dist[yy][xx], EdgeAngle(w, h, xx, yy, m), points, p, m) else g[yy][xx]
    {
      var x := 0;
      while x < w
        invariant 0 <= x <= w && Shaped(r, w, h)
        invariant forall yy, xx :: 0 <= yy < h && 0 <= xx < w ==>
          r[yy][xx] == if Before(yy, xx, y, x) then Injected(g[yy][xx], dist[yy][xx], EdgeAngle(w, h, xx, yy, m), points, p, m) else g[yy][xx]
      {
        var c := r[y][x];
        if c.inWorld {
          var d := dist[y][x];
          if d >= p.edgeGenerationOffset && d < p.edgeGenerationOffset + p.edgeGenerationWidth {
            var angle := m.atan2(y as real - h as real / 2.0, x as real - w as real / 2.0);
            if angle < 0.0 { angle := angle + TwoPi; }
            var density := GetDensity(angle, points, p, m);
            r := Put(r, x, y, c.(mantleEnergy := c.mantleEnergy + p.edgeGenerationEnergy * density));
          }
        }
        x := x + 1;
      }
      y := y + 1;
    }
  }

  /**
   * Injection only touches the mantle energy of in-world cells: existence and
   * every other field are kept, so a clean grid stays clean, and with a
   * non-negative energy and falloff no mantle energy decreases.
   */
  lemma InjectionKeeps(g: Grid, r: Grid, w: int, h: int, dist: IntField, points: seq<SupplyPoint>,
                       p: SimulationParams, m: MathFns)
    requires Shaped(g, w, h) && Shaped(r, w, h) && IntShaped(dist, w, h)
    requires forall y, x :: 0 <= y < h && 0 <= x < w ==>
      r[y][x] == Injected(g[y][x], dist[y][x], EdgeAngle(w, h, x, y, m), points, p, m)
    ensures forall y, x :: 0 <= y < h && 0 <= x < w ==>
      r[y][x] == g[y][x].(mantleEnergy := r[y][x].mantleEnergy)
    ensures Clean(g) ==> Clean(r)
    ensures p.edgeGenerationEnergy >= 0.0 && (forall d, s :: m.gaussian(d, s) >= 0.0) ==>
      forall y, x :: 0 <= y < h && 0 <= x < w ==> r[y][x].mantleEnergy >= g[y][x].mantleEnergy
  {
    if p.edgeGenerationEnergy >= 0.0 && (forall d, s :: m.gaussian(d, s) >= 0.0) {
      forall y, x | 0 <= y < h && 0 <= x < w ensures r[y][x].mantleEnergy >= g[y][x].mantleEnergy {
        DensityNonNegative(EdgeAngle(w, h, x, y, m), points, p, m);
      }
    }
  }
}
