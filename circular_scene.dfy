/**
 * UCircularSceneManager: a ring around a centre in the X-Y plane, bounded
 * by an inner and an outer radius, with enemies on a circle between them.
 * Angles are radians kept in [0, 2π). Sine and cosine are not modelled:
 * where the source turns polar coordinates into a vector, the conversion
 * is a parameter.
 */
module CircularScenes {
  import opened UnrealMath
  import opened Vectors
  import opened SceneBase

  /** How many whole turns lie below the angle. */
  function Turns(a: real): int
  {
    FloorToInt(a / TwoPi)
  }

  /** The angle reduced into [0, 2π) by whole turns. */
  function Normalized(a: real): (r: real)
    ensures 0.0 <= r < TwoPi
  {
    var q := a / TwoPi;
    assert q * TwoPi == a;
    a - Turns(a) as real * TwoPi
  }

  /** Reduction is determined by its range: the only whole-turn shift of a into [0, 2π) is the reduced angle. */
  lemma NormalizedUnique(a: real, k: int)
    requires 0.0 <= a - k as real * TwoPi < TwoPi
    ensures Normalized(a) == a - k as real * TwoPi
  {
    var q := a / TwoPi;
    assert q * TwoPi == a;
    assert k as real <= q < k as real + 1.0;
    assert Turns(a) == k;
  }

  /** Angles a whole number of turns apart reduce to the same angle. */
  lemma NormalizedShift(a: real, m: int)
    ensures Normalized(a + m as real * TwoPi) == Normalized(a)
  {
    var k := Turns(a) + m;
    assert a + m as real * TwoPi - k as real * TwoPi == Normalized(a);
    NormalizedUnique(a + m as real * TwoPi, k);
  }

  /** An angle already in [0, 2π) is left alone, so reducing twice is reducing once. */
  lemma NormalizedFixes(a: real)
    ensures 0.0 <= a < TwoPi ==> Normalized(a) == a
    ensures Normalized(Normalized(a)) == Normalized(a)
  {
    if 0.0 <= a < TwoPi {
      NormalizedUnique(a, 0);
    }
    NormalizedUnique(Normalized(a), 0);
  }

  /** The reduced angle differs from the angle by whole turns. */
  lemma NormalizedTurns(a: real)
    ensures a == Normalized(a) + Turns(a) as real * TwoPi
  {
  }

  /**
   * NormalizeAngle: add whole turns while the angle is negative, then take
   * them away while it is at least 2π.
   */
  method NormalizeAngle(angle: real) returns (r: real)
    ensures r == Normalized(angle)
  {
    ghost var n := Normalized(angle);
    ghost var m := Turns(angle);
    NormalizedTurns(angle);
    r := angle;
    while r < 0.0
      invariant r == n + m as real * TwoPi
      decreases -m
    {
      r := r + TwoPi;
      m := m + 1;
    }
    while r >= TwoPi
      invariant r == n + m as real * TwoPi && m >= 0
      decreases m
    {
      r := r - TwoPi;
      m := m - 1;
    }
  }

  /**
   * AngleDifference: the signed turn from the first angle to the second,
   * taken the short way round.
   */
  method AngleDifference(angle1: real, angle2: real) returns (diff: real)
    ensures -Pi <= diff <= Pi
    ensures Normalized(angle1 + diff) == Normalized(angle2)
  {
    var a1 := NormalizeAngle(angle1);
    var a2 := NormalizeAngle(angle2);
    diff := a2 - a1;
    ghost var c := 0;
    if diff > Pi {
      diff := diff - 2.0 * Pi;
      c := -1;
    } else if diff < -Pi {
      diff := diff + 2.0 * Pi;
      c := 1;
    }
    NormalizedTurns(angle1);
    assert angle1 + diff - (Turns(angle1) + c) as real * TwoPi == a2;
    NormalizedUnique(angle1 + diff, Turns(angle1) + c);
  }

  /** The point of the circle of the radius about the centre at the reduced angle, for a given polar-to-Cartesian map. */
  function RingPoint(center: Vec3, radius: real, angle: real, polar: (real, real) -> Vec3): Vec3
  {
    polar(radius, Normalized(angle)).Add(center)
  }

  /** Points of a circle repeat every whole turn. */
  lemma RingPointPeriodic(center: Vec3, radius: real, angle: real, k: int, polar: (real, real) -> Vec3)
    ensures RingPoint(center, radius, angle + k as real * TwoPi, polar) == RingPoint(center, radius, angle, polar)
  {
    NormalizedShift(angle, k);
  }

  class CircularSceneManager {
    var center: Vec3
    var innerRadius: real
    var outerRadius: real
    var enemyRadius: real
    var bounceCoefficient: real

    /** A ring of radii 300 and 500 about the origin, enemies on radius 400. */
    constructor()
      ensures center == Zero
      ensures innerRadius == 300.0 && outerRadius == 500.0 && enemyRadius == 400.0
      ensures bounceCoefficient == DefaultBounceCoefficient
    {
      center := Zero;
      innerRadius := 300.0;
      outerRadius := 500.0;
      enemyRadius := 400.0;
      bounceCoefficient := DefaultBounceCoefficient;
    }

    /** Initialize: the two radii, and the enemy circle half-way between them. */
    method Initialize(inner: real, outer: real)
      modifies this
      ensures innerRadius == inner && outerRadius == outer
      ensures enemyRadius == (inner + outer) / 2.0
      ensures inner <= outer ==> innerRadius <= enemyRadius <= outerRadius
      ensures center == old(center) && bounceCoefficient == old(bounceCoefficient)
    {
      innerRadius := inner;
      outerRadius := outer;
      enemyRadius := (innerRadius + outerRadius) / 2.0;
    }

    /** SetCenter. */
    method SetCenter(c: Vec3)
      modifies this
      ensures center == c
      ensures innerRadius == old(innerRadius) && outerRadius == old(outerRadius)
      ensures enemyRadius == old(enemyRadius) && bounceCoefficient == old(bounceCoefficient)
    {
      center := c;
    }

    /** Advance: a straight step taken relative to the centre; the velocity is kept. */
    function Advance(m: Motion, dt: real): (r: Motion)
      reads this
      ensures r.position == m.position.Add(m.velocity.Scale(dt))
      ensures r.velocity == m.velocity
    {
      var relative := m.position.Sub(center).Add(m.velocity.Scale(dt));
      Motion(relative.Add(center), m.velocity)
    }

    /** ApplyEnvironmentalForces: the ring has no gravity or drag. */
    function ApplyEnvironmentalForces(v: Vec3, dt: real): (r: Vec3)
      ensures r == v
    {
      v
    }

    /** The squared distance from the centre in the X-Y plane. */
    function RadiusSquared(p: Vec3): (s: real)
      reads this
      ensures s >= 0.0
    {
      p.Sub(center).SizeSquared2D()
    }

    /** IsOutOfBounds: beyond the outer circle or inside the inner one, strictly. */
    function IsOutOfBounds(p: Vec3): (b: bool)
      reads this
      // a point farther out than the outer wall is out of bounds
      ensures RadiusSquared(p) > outerRadius * outerRadius ==> b
      // a point on the enemy circle, when that circle lies between the walls, is not
      ensures 0.0 <= innerRadius <= enemyRadius <= outerRadius && RadiusSquared(p) == enemyRadius * enemyRadius ==> !b
    {
      var s := RadiusSquared(p);
      assert 0.0 <= innerRadius <= enemyRadius <= outerRadius && s == enemyRadius * enemyRadius
          ==> !DistMore(s, outerRadius) && !DistLess(s, innerRadius) by {
        if enemyRadius >= 0.0 {
          DistPredicates(enemyRadius, outerRadius);
          DistPredicates(enemyRadius, innerRadius);
        }
      }
      DistMore(s, outerRadius) || DistLess(s, innerRadius)
    }

    /** Compared through the distance itself: out of bounds exactly when it is above the outer radius or below the inner one. */
    lemma OutOfBoundsByDistance(p: Vec3, d: real)
      requires d >= 0.0 && d * d == RadiusSquared(p)
      ensures IsOutOfBounds(p) <==> d > outerRadius || d < innerRadius
    {
      DistPredicates(d, outerRadius);
      DistPredicates(d, innerRadius);
    }

    /** GetEnemyPosition: the point of the enemy circle at the reduced angle, about the centre. */
    method GetEnemyPosition(angle: real, polar: (real, real) -> Vec3) returns (p: Vec3)
      ensures p == RingPoint(center, enemyRadius, angle, polar)
    {
      var a := NormalizeAngle(angle);
      p := polar(enemyRadius, a).Add(center);
    }

    /**
     * When the map puts the point at the requested distance and the enemy
     * circle lies between the walls, an enemy is never out of bounds.
     */
    lemma EnemyInBounds(angle: real, polar: (real, real) -> Vec3)
      requires 0.0 <= innerRadius <= enemyRadius <= outerRadius
      requires polar(enemyRadius, Normalized(angle)).SizeSquared2D() == enemyRadius * enemyRadius
      ensures !IsOutOfBounds(RingPoint(center, enemyRadius, angle, polar))
    {
      var p := RingPoint(center, enemyRadius, angle, polar);
      assert p.Sub(center) == polar(enemyRadius, Normalized(angle));
      OutOfBoundsByDistance(p, enemyRadius);
    }

    /** UpdateEnemyAngle: turn by the angular velocity over the step, then reduce. */
    method UpdateEnemyAngle(current: real, angularVelocity: real, dt: real) returns (r: real)
      ensures r == Normalized(current + angularVelocity * dt)
    {
      r := NormalizeAngle(current + angularVelocity * dt);
    }
  }
}
