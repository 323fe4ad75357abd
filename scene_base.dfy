/**
 * USceneManagerBase: the bounce arithmetic and the screen mapping every
 * combat scene shares. A scene's by-reference position and velocity
 * arguments become values passed in and returned.
 */
module SceneBase {
  import opened Vectors

  /** The bounce coefficient a scene manager is constructed with. */
  const DefaultBounceCoefficient: real := 0.8

  /** The position and velocity a scene step updates. */
  datatype Motion = Motion(position: Vec3, velocity: Vec3)

  /** WorldToScreen: logical and screen coordinates coincide. */
  function WorldToScreen(p: Vec3): (r: Vec3)
    // ScreenToWorld takes the screen point back to the logical one
    ensures ScreenToWorld(r) == p
  {
    p
  }

  /** ScreenToWorld: moves no point. */
  function ScreenToWorld(p: Vec3): (r: Vec3)
    ensures r == p
  {
    p
  }

  /** The two mappings undo each other, in both orders. */
  lemma ScreenRoundTrip(p: Vec3)
    ensures ScreenToWorld(WorldToScreen(p)) == p
    ensures WorldToScreen(ScreenToWorld(p)) == p
  {
  }

  /** CalculateBounceVelocity: the reflection V - 2 (V·N) N. */
  function BounceVelocity(v: Vec3, n: Vec3): Vec3
  {
    v.Sub(n.Scale(2.0 * v.Dot(n)))
  }

  /** The part of u perpendicular to the unit vector n. */
  function Tangent(u: Vec3, n: Vec3): Vec3
  {
    u.Sub(n.Scale(u.Dot(n)))
  }

  predicate IsUnit(n: Vec3)
  {
    n.Dot(n) == 1.0
  }

  /** (V - k N)·N = V·N - k for a unit N. */
  lemma DotAfterShift(v: Vec3, n: Vec3, k: real)
    requires IsUnit(n)
    ensures v.Sub(n.Scale(k)).Dot(n) == v.Dot(n) - k
  {
    var w := v.Sub(n.Scale(k));
    calc {
      w.Dot(n);
      (v.x - n.x * k) * n.x + (v.y - n.y * k) * n.y + (v.z - n.z * k) * n.z;
      v.Dot(n) - k * (n.x * n.x + n.y * n.y + n.z * n.z);
      v.Dot(n) - k;
    }
  }

  /** Against a unit normal, the normal component of the velocity changes sign. */
  lemma BounceNegatesNormal(v: Vec3, n: Vec3)
    requires IsUnit(n)
    ensures BounceVelocity(v, n).Dot(n) == -v.Dot(n)
  {
    DotAfterShift(v, n, 2.0 * v.Dot(n));
  }

  /** Against a unit normal, the tangential part of the velocity is kept. */
  lemma BounceKeepsTangent(v: Vec3, n: Vec3)
    requires IsUnit(n)
    ensures Tangent(BounceVelocity(v, n), n) == Tangent(v, n)
  {
    BounceNegatesNormal(v, n);
    var d := v.Dot(n);
    var r := BounceVelocity(v, n);
    assert r.Dot(n) == -d;
    assert Tangent(r, n) == r.Sub(n.Scale(-d));
  }

  /** Against a unit normal, the speed is kept: |V'|² = |V|². */
  lemma BounceKeepsSpeed(v: Vec3, n: Vec3)
    requires IsUnit(n)
    ensures BounceVelocity(v, n).SizeSquared() == v.SizeSquared()
  {
    var d := v.Dot(n);
    var k := 2.0 * d;
    var r := BounceVelocity(v, n);
    calc {
      r.SizeSquared();
      (v.x - n.x * k) * (v.x - n.x * k) + (v.y - n.y * k) * (v.y - n.y * k) + (v.z - n.z * k) * (v.z - n.z * k);
      v.SizeSquared() - 2.0 * k * d + k * k * (n.x * n.x + n.y * n.y + n.z * n.z);
      v.SizeSquared() - 2.0 * k * d + k * k;
      v.SizeSquared();
    }
  }

  /** Reflecting twice in the same unit normal gives the velocity back. */
  lemma BounceTwice(v: Vec3, n: Vec3)
    requires IsUnit(n)
    ensures BounceVelocity(BounceVelocity(v, n), n) == v
  {
    BounceNegatesNormal(v, n);
  }

  /** ApplyBounceCoefficient: the velocity scaled by the coefficient. */
  function ApplyBounceCoefficient(v: Vec3, k: real): (r: Vec3)
    // the direction is kept: a non-zero coefficient is undone by its reciprocal
    ensures k != 0.0 ==> r.Scale(1.0 / k) == v
    // the squared speed scales by k²
    ensures r.SizeSquared() == k * k * v.SizeSquared()
  {
    assert k != 0.0 ==> k * (1.0 / k) == 1.0;
    v.Scale(k)
  }

  /** Scaling by k scales the squared speed by k², so a coefficient in [0, 1] never speeds a body up. */
  lemma CoefficientScalesSpeed(v: Vec3, k: real)
    ensures ApplyBounceCoefficient(v, k).SizeSquared() == k * k * v.SizeSquared()
    ensures 0.0 <= k <= 1.0 ==> ApplyBounceCoefficient(v, k).SizeSquared() <= v.SizeSquared()
  {
    var r := ApplyBounceCoefficient(v, k);
    assert r.SizeSquared() == k * k * v.SizeSquared();
    if 0.0 <= k <= 1.0 {
      assert k * k <= 1.0 by {
        assert k * k <= k * 1.0;
      }
      assert 0.0 <= v.SizeSquared();
      assert k * k * v.SizeSquared() <= 1.0 * v.SizeSquared();
    }
  }
}
