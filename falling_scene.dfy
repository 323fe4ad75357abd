/**
 * UFallingSceneManager: a rectangle of the X-Z plane centred on the origin,
 * with gravity and damped bounces off its four walls. The position and
 * velocity a caller passes by reference are passed in and returned.
 */
module FallingScenes {
  import opened UnrealMath
  import opened Vectors
  import opened SceneBase
  class FallingSceneManager {
    var sceneWidth: real
    var sceneHeight: real
    var gravity: Vec3
    var bounceCoefficient: real

    /** 800 by 600, gravity of 980 downwards along Z, the shared bounce coefficient. */
    constructor()
      ensures sceneWidth == 800.0 && sceneHeight == 600.0
      ensures gravity == Vec3(0.0, 0.0, -980.0)
      ensures bounceCoefficient == DefaultBounceCoefficient
    {
      sceneWidth := 800.0;
      sceneHeight := 600.0;
      gravity := Vec3(0.0, 0.0, -980.0);
      bounceCoefficient := DefaultBounceCoefficient;
    }

    /** Initialize: the scene size, nothing else. */
    method Initialize(width: real, height: real)
      modifies this
      ensures sceneWidth == width && sceneHeight == height
      ensures gravity == old(gravity) && bounceCoefficient == old(bounceCoefficient)
    {
      sceneWidth := width;
      sceneHeight := height;
    }

    /** SetGravity. */
    method SetGravity(g: Vec3)
      modifies this
      ensures gravity == g
      ensures sceneWidth == old(sceneWidth) && sceneHeight == old(sceneHeight)
      ensures bounceCoefficient == old(bounceCoefficient)
    {
      gravity := g;
    }

    /** IsOutOfBounds: X beyond half the width or Z beyond half the height, strictly. */
    function IsOutOfBounds(p: Vec3): (b: bool)
      reads this
      // out of bounds exactly when clamping X or Z to the walls would move the point
      ensures b <==> Clamp(p.x, -sceneWidth * 0.5, sceneWidth * 0.5) != p.x
                     || Clamp(p.z, -sceneHeight * 0.5, sceneHeight * 0.5) != p.z
    {
      var hw := sceneWidth * 0.5;
      var hh := sceneHeight * 0.5;
      p.x < -hw || p.x > hw || p.z < -hh || p.z > hh
    }

    /** ApplyEnvironmentalForces: one step of gravity. */
    function ApplyEnvironmentalForces(v: Vec3, dt: real): (r: Vec3)
      reads this
      // the step changes the velocity by gravity times dt and nothing else, so taking it back restores v
      ensures r.Sub(gravity.Scale(dt)) == v
    {
      v.Add(gravity.Scale(dt))
    }

    /** Gravity steps add up: two steps are one step of the summed time, and a zero step changes nothing. */
    lemma GravitySteps(v: Vec3, dt1: real, dt2: real)
      ensures ApplyEnvironmentalForces(ApplyEnvironmentalForces(v, dt1), dt2) == ApplyEnvironmentalForces(v, dt1 + dt2)
      ensures ApplyEnvironmentalForces(v, 0.0) == v
    {
      var g := gravity;
      assert v.x + g.x * dt1 + g.x * dt2 == v.x + g.x * (dt1 + dt2);
      assert v.y + g.y * dt1 + g.y * dt2 == v.y + g.y * (dt1 + dt2);
      assert v.z + g.z * dt1 + g.z * dt2 == v.z + g.z * (dt1 + dt2);
    }

    /**
     * HandleBoundaryInteraction: a position past a side wall is put on that
     * wall and its X velocity reversed and damped; likewise for the floor
     * and ceiling along Z. Y is never touched.
     */
    function HandleBoundaryInteraction(m: Motion): (r: Motion)
      reads this
      ensures r.position.y == m.position.y && r.velocity.y == m.velocity.y
      ensures -sceneWidth * 0.5 <= m.position.x <= sceneWidth * 0.5 ==>
        r.position.x == m.position.x && r.velocity.x == m.velocity.x
      ensures m.position.x < -sceneWidth * 0.5 ==>
        r.position.x == -sceneWidth * 0.5 && r.velocity.x == -m.velocity.x * bounceCoefficient
      ensures -sceneWidth * 0.5 <= sceneWidth * 0.5 < m.position.x ==>
        r.position.x == sceneWidth * 0.5 && r.velocity.x == -m.velocity.x * bounceCoefficient
      ensures -sceneHeight * 0.5 <= m.position.z <= sceneHeight * 0.5 ==>
        r.position.z == m.position.z && r.velocity.z == m.velocity.z
      ensures m.position.z < -sceneHeight * 0.5 ==>
        r.position.z == -sceneHeight * 0.5 && r.velocity.z == -m.velocity.z * bounceCoefficient
      ensures -sceneHeight * 0.5 <= sceneHeight * 0.5 < m.position.z ==>
        r.position.z == sceneHeight * 0.5 && r.velocity.z == -m.velocity.z * bounceCoefficient
      ensures sceneWidth >= 0.0 && sceneHeight >= 0.0 ==> !IsOutOfBounds(r.position)
      ensures !IsOutOfBounds(m.position) ==> r == m
    {
      var hw := sceneWidth * 0.5;
      var hh := sceneHeight * 0.5;
      var p := m.position;
      var v := m.velocity;
      var (p, v) :=
        if p.x < -hw then (p.(x := -hw), v.(x := -v.x * bounceCoefficient))
        else if p.x > hw then (p.(x := hw), v.(x := -v.x * bounceCoefficient))
        else (p, v);
      var (p, v) :=
        if p.z < -hh then (p.(z := -hh), v.(z := -v.z * bounceCoefficient))
        else if p.z > hh then (p.(z := hh), v.(z := -v.z * bounceCoefficient))
        else (p, v);
      Motion(p, v)
    }

    /** In a scene of non-negative size, handling the boundary twice is handling it once. */
    lemma HandleIdempotent(m: Motion)
      requires sceneWidth >= 0.0 && sceneHeight >= 0.0
      ensures HandleBoundaryInteraction(HandleBoundaryInteraction(m)) == HandleBoundaryInteraction(m)
    {
    }

    /** Advance: move by the velocity, then gravity, then the walls. */
    function Advance(m: Motion, dt: real): (r: Motion)
      reads this
      ensures sceneWidth >= 0.0 && sceneHeight >= 0.0 ==> !IsOutOfBounds(r.position)
      ensures r.position.y == m.position.y + m.velocity.y * dt
      ensures r.velocity.y == m.velocity.y + gravity.y * dt
    {
      var moved := m.position.Add(m.velocity.Scale(dt));
      HandleBoundaryInteraction(Motion(moved, ApplyEnvironmentalForces(m.velocity, dt)))
    }

    /** A step that stays inside the walls is plain motion under gravity: no wall is touched. */
    lemma AdvanceInside(m: Motion, dt: real)
      requires !IsOutOfBounds(m.position.Add(m.velocity.Scale(dt)))
      ensures Advance(m, dt) == Motion(m.position.Add(m.velocity.Scale(dt)), ApplyEnvironmentalForces(m.velocity, dt))
    {
    }

    /** A bounce never speeds a body up along the wall's axis when the coefficient is in [0, 1]. */
    lemma BounceDamps(m: Motion)
      requires 0.0 <= bounceCoefficient <= 1.0
      ensures Abs(HandleBoundaryInteraction(m).velocity.x) <= Abs(m.velocity.x)
      ensures Abs(HandleBoundaryInteraction(m).velocity.z) <= Abs(m.velocity.z)
    {
      DampedAbs(m.velocity.x, bounceCoefficient);
      DampedAbs(m.velocity.z, bounceCoefficient);
    }
  }

  /** Reversing and damping a speed by k in [0, 1] does not raise its magnitude. */
  lemma DampedAbs(a: real, k: real)
    requires 0.0 <= k <= 1.0
    ensures Abs(-a * k) <= Abs(a)
  {
    if a < 0.0 {
      assert -a * k <= -a * 1.0;
    } else {
      assert a * k <= a * 1.0;
    }
  }
}
