/** The edge supply points of UpdateMantleLayer: their drift, and the energy they inject near the rim. */
module EdgeSupply {
  import opened UnrealMath
  import opened WorldMorphingTypes
  import opened WorldGrid

  // ---------------------------------------------------------------------
  // 2. Edge supply points.

  /** FEdgeSupplyPoint: an angle on the rim and its angular speed. */
  datatype SupplyPoint = SupplyPoint(angle: real, speed: real)

  /**
   * The random draws of the supply-point update, point by point: the FRand()
   * inside the drift factor, whether FRand() < 0.01 fired, and the FRand()
   * that then picks the new speed.
   */
  datatype SupplyDraws = SupplyDraws(drift: int -> real, reroll: int -> bool, speed: int -> real)

  /** The one-step wrap: subtract 2π once if above it, then add 2π once if below 0. */
  function WrapOnce(a: real): real
  {
    var a1 := if a > TwoPi then a - TwoPi else a;
    if a1 < 0.0 then a1 + TwoPi else a1
  }

  /** An angle in [0, 2π] moved by at most 2π either way stays in [0, 2π] after the single wrap. */
  lemma WrapOnceInRange(a: real, step: real)
    requires 0.0 <= a <= TwoPi && -TwoPi <= step <= TwoPi
    ensures 0.0 <= WrapOnce(a + step) <= TwoPi
    ensures WrapOnce(a + step) == a + step || WrapOnce(a + step) == a + step - TwoPi || WrapOnce(a + step) == a + step + TwoPi
  {
  }

  /** A larger step is not brought back: the wrap is applied once, not repeated, so above 4π the angle stays above 2π. */
  lemma WrapOnceIsSingle(a: real)
    requires a > 2.0 * TwoPi
    ensures WrapOnce(a) == a - TwoPi && WrapOnce(a) > TwoPi
  {
  }

  /** The speed a re-roll gives: FRand() - 0.5 times the configured speed. */
  function NewSpeed(draw: real, p: SimulationParams): real
  {
    (draw - 0.5) * p.edgeSupplyPointSpeed
  }

  /** A point after one update with the given draws: moved by its speed times the drift factor, wrapped once, its speed maybe re-rolled. */
  function Moved(pt: SupplyPoint, drift: real, reroll: bool, draw: real, p: SimulationParams): SupplyPoint
  {
    SupplyPoint(WrapOnce(pt.angle + pt.speed * (drift * 0.5 + 0.75)), if reroll then NewSpeed(draw, p) else pt.speed)
  }

  lemma MovedBy(pt: SupplyPoint, drift: real, reroll: bool, draw: real, p: SimulationParams, angle: real, speed: real)
    requires angle == WrapOnce(pt.angle + pt.speed * (drift * 0.5 + 0.75))
    requires speed == if reroll then NewSpeed(draw, p) else pt.speed
    ensures SupplyPoint(angle, speed) == Moved(pt, drift, reroll, draw, p)
  {
  }

  /** All the points after one update, each with its own draws. */
  function MovedPoints(points: seq<SupplyPoint>, p: SimulationParams, d: SupplyDraws): (r: seq<SupplyPoint>)
    ensures |r| == |points|
    ensures forall i :: 0 <= i < |points| ==> r[i] == Moved(points[i], d.drift(i), d.reroll(i), d.speed(i), p)
  {
    seq(|points|, i requires 0 <= i < |points| => Moved(points[i], d.drift(i), d.reroll(i), d.speed(i), p))
  }

  /** Move every supply point by its speed times the drift factor and maybe re-roll its speed. */
  method MoveSupplyPoints(points: seq<SupplyPoint>, p: SimulationParams, d: SupplyDraws)
    returns (r: seq<SupplyPoint>)
    ensures |r| == |points|
    ensures forall i :: 0 <= i < |points| ==>
      r[i].angle == WrapOnce(points[i].angle + points[i].speed * (d.drift(i) * 0.5 + 0.75))
    ensures forall i :: 0 <= i < |points| ==>
      r[i].speed == if d.reroll(i) then NewSpeed(d.speed(i), p) else points[i].speed
    ensures r == MovedPoints(points, p, d)
  {
    r := points;
    var i := 0;
    while i < |r|
      invariant 0 <= i <= |r| == |points|
      invariant forall j :: 0 <= j < i ==> r[j] == Moved(points[j], d.drift(j), d.reroll(j), d.speed(j), p)
      invariant forall j :: i <= j < |r| ==> r[j] == points[j]
    {
      var pt := r[i];
      var drift, reroll, draw := d.drift(i), d.reroll(i), d.speed(i);
      ghost var moved := pt.angle + pt.speed * (drift * 0.5 + 0.75);
      var angle := pt.angle + pt.speed * (drift * 0.5 + 0.75);
      if angle > TwoPi { angle := angle - TwoPi; }
      if angle < 0.0 { angle := angle + TwoPi; }
      assert angle == WrapOnce(moved);
      var speed := pt.speed;
      if reroll {
        speed := (draw - 0.5) * p.edgeSupplyPointSpeed;
      }
      MovedBy(pt, drift, reroll, draw, p, angle, speed);
      r := r[i := SupplyPoint(angle, speed)];
      i := i + 1;
    }
    forall j | 0 <= j < |points|
      ensures r[j].angle == WrapOnce(points[j].angle + points[j].speed * (d.drift(j) * 0.5 + 0.75))
      ensures r[j].speed == if d.reroll(j) then NewSpeed(d.speed(j), p) else points[j].speed
    {
      assert r[j] == Moved(points[j], d.drift(j), d.reroll(j), d.speed(j), p);
    }
  }
}
