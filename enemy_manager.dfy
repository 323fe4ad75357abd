/**
 * UEnemyManager: the list of enemies of a combat, spawned on the ring of a
 * circular scene or scattered over another scene, moved round the ring,
 * damaged, found and removed by id.
 *
 * GUIDs come from a counter (the first is 1; 0 is the invalid GUID).
 * Randomness, the record's IsAlive and ApplyDamage, and the polar-to-
 * Cartesian conversion are parameters. A broadcast appends to an event log.
 */
module EnemyManagers {
  import opened Wrappers
  import opened UnrealMath
  import opened Vectors
  import opened EnemyData
  import opened CircularScenes

  /** The scene a manager is bound to: none, or one reporting a type and perhaps castable to the circular scene. */
  datatype SceneRef = NoScene | Scene(sceneType: string, circular: Option<CircularSceneManager>)

  /** The scene object a spawn or a step may read. */
  function SceneObjects(s: SceneRef): set<object>
  {
    if s.Scene? && s.circular.Some? then {s.circular.value} else {}
  }

  /** The scene reports "Circular" and the cast to the circular scene succeeds. */
  predicate IsCircular(s: SceneRef)
  {
    s.Scene? && s.sceneType == "Circular" && s.circular.Some?
  }

  /** What a spawn or a step uses of the scene: the enemy circle of a circular scene, or nothing. */
  datatype RingView = NoRing | Ring(center: Vec3, radius: real)

  /** The enemy circle of the scene, when it is circular. */
  function RingOf(s: SceneRef): (v: RingView)
    reads SceneObjects(s)
    ensures v.Ring? <==> IsCircular(s)
  {
    if IsCircular(s) then Ring(s.circular.value.center, s.circular.value.enemyRadius) else NoRing
  }

  /**
   * The enemy SpawnEnemyAtAngle adds: on the enemy circle at the angle,
   * with the angle remembered, when the scene is circular; at the origin
   * otherwise.
   */
  function AngleSpawn(v: RingView, id: Guid, t: EnemyType, angle: real, maxHealth: real,
                      polar: (real, real) -> Vec3): Enemy
  {
    match v
    case Ring(center, radius) =>
      NewEnemy(id, t, RingPoint(center, radius, angle, polar), maxHealth).(extraData := map["Angle" := angle])
    case NoRing =>
      NewEnemy(id, t, Zero, maxHealth)
  }

  /**
   * One enemy after a step: on a circular scene it turns at the angular
   * velocity, is put on the enemy circle at its new angle and remembers
   * that angle; on any other scene it stays where it is.
   */
  function Moved(v: RingView, e: Enemy, angularVelocity: real, dt: real, polar: (real, real) -> Vec3): (r: Enemy)
    ensures r.id == e.id && r.health == e.health && r.isActive == e.isActive
  {
    match v
    case Ring(center, radius) =>
      e.(position := RingPoint(center, radius, Normalized(AngleOf(e) + angularVelocity * dt), polar),
         extraData := e.extraData["Angle" := Normalized(AngleOf(e) + angularVelocity * dt)])
    case NoRing => e
  }

  /** Moved written out on a ring, for a caller that computed the reduced angle and the point itself. */
  lemma MovedTo(center: Vec3, radius: real, e: Enemy, angularVelocity: real, dt: real, polar: (real, real) -> Vec3,
                angle: real, p: Vec3)
    requires angle == Normalized(AngleOf(e) + angularVelocity * dt)
    requires p == RingPoint(center, radius, angle, polar)
    ensures Moved(Ring(center, radius), e, angularVelocity, dt, polar)
            == e.(position := p, extraData := e.extraData["Angle" := angle])
  {
    NormalizedFixes(AngleOf(e) + angularVelocity * dt);
  }

  /** A moved enemy's remembered angle is its old angle plus the turn, reduced into [0, 2π). */
  lemma MovedAngle(v: RingView, e: Enemy, angularVelocity: real, dt: real, polar: (real, real) -> Vec3)
    requires v.Ring?
    ensures 0.0 <= AngleOf(Moved(v, e, angularVelocity, dt, polar)) < TwoPi
    ensures AngleOf(Moved(v, e, angularVelocity, dt, polar)) == Normalized(AngleOf(e) + angularVelocity * dt)
  {
  }

  /** Reducing the angle before placing the enemy changes nothing: a moved enemy stands where the turned angle points. */
  lemma MovedOnRing(v: RingView, e: Enemy, angularVelocity: real, dt: real, polar: (real, real) -> Vec3)
    requires v.Ring?
    ensures Moved(v, e, angularVelocity, dt, polar).position
            == RingPoint(v.center, v.radius, AngleOf(e) + angularVelocity * dt, polar)
  {
    NormalizedFixes(AngleOf(e) + angularVelocity * dt);
  }

  /**
   * In a circular scene whose enemy circle lies between the walls, a moved
   * enemy stands on that circle, so it is never out of bounds.
   */
  lemma MovedInBounds(s: SceneRef, e: Enemy, angularVelocity: real, dt: real, polar: (real, real) -> Vec3)
    requires IsCircular(s)
    requires 0.0 <= s.circular.value.innerRadius <= s.circular.value.enemyRadius <= s.circular.value.outerRadius
    requires var c := s.circular.value;
      var a := AngleOf(e) + angularVelocity * dt;
      polar(c.enemyRadius, Normalized(a)).SizeSquared2D() == c.enemyRadius * c.enemyRadius
    ensures !s.circular.value.IsOutOfBounds(Moved(RingOf(s), e, angularVelocity, dt, polar).position)
  {
    var a := Normalized(AngleOf(e) + angularVelocity * dt);
    NormalizedFixes(AngleOf(e) + angularVelocity * dt);
    s.circular.value.EnemyInBounds(a, polar);
  }

  /** The angle between neighbours when Count enemies share the circle; with no enemy to place it is never used. */
  function RingStep(count: int): real
  {
    if count > 0 then TwoPi / count as real else 0.0
  }

  /** The angle of the i-th of Count enemies spread evenly round the circle. */
  function RingAngle(i: nat, count: int): real
  {
    i as real * RingStep(count)
  }

  /** Stepping i times by the ring step reaches RingAngle. */
  lemma RingAngleIs(i: nat, count: int, step: real)
    requires step == RingStep(count)
    ensures i as real * step == RingAngle(i, count)
  {
  }

  /** The first Count angles go once round the circle, evenly, without reaching a full turn. */
  lemma RingAnglesInTurn(i: nat, count: int)
    requires i < count
    ensures 0.0 <= RingAngle(i, count) < TwoPi
    ensures RingAngle(i + 1, count) - RingAngle(i, count) == TwoPi / count as real
  {
    var step := TwoPi / count as real;
    assert step * count as real == TwoPi;
    assert step > 0.0;
    assert (count as real - i as real) * step > 0.0;
  }

  /**
   * What SpawnEnemies works from: whether the scene reports "Circular", its
   * enemy circle, the first GUID, the type, the count, the health, the
   * polar-to-Cartesian map and the random draws.
   */
  datatype Batch = Batch(onRing: bool, ring: RingView, guid0: Guid, enemyType: EnemyType, count: int,
                         maxHealth: real, polar: (real, real) -> Vec3, draw: nat -> (real, real))

  /**
   * The i-th enemy of a batch: on a scene reporting "Circular", the one
   * SpawnEnemyAtAngle adds at i steps of 2π/Count; on any other scene, one
   * at the i-th drawn (X, Y) point of the plane Z = 0.
   */
  function BatchSpawn(b: Batch, i: nat): Enemy
  {
    if b.onRing then AngleSpawn(b.ring, b.guid0 + i, b.enemyType, RingAngle(i, b.count), b.maxHealth, b.polar)
    else NewEnemy(b.guid0 + i, b.enemyType, Vec3(b.draw(i).0, b.draw(i).1, 0.0), b.maxHealth)
  }

  /** The first n enemies of a batch, in spawning order. */
  function BatchSpawns(b: Batch, n: nat): (r: seq<Enemy>)
    ensures |r| == n
  {
    if n == 0 then [] else BatchSpawns(b, n - 1) + [BatchSpawn(b, n - 1)]
  }

  /** Entry k of a batch is its k-th spawn, under GUID guid0 + k. */
  lemma {:induction false} BatchSpawnsAt(b: Batch, n: nat)
    ensures forall k :: 0 <= k < n ==> BatchSpawns(b, n)[k] == BatchSpawn(b, k)
    ensures forall k :: 0 <= k < n ==> BatchSpawns(b, n)[k].id == b.guid0 + k
  {
    if n > 0 {
      BatchSpawnsAt(b, n - 1);
      assert forall k :: 0 <= k < n - 1 ==> BatchSpawns(b, n)[k] == BatchSpawns(b, n - 1)[k];
    }
  }

  /**
   * On a circular scene, a batch of Count goes once round the enemy circle:
   * the k-th enemy remembers angle k·2π/Count, in [0, 2π), and stands
   * where SpawnEnemyAtAngle would put it.
   */
  lemma BatchOnRing(b: Batch, k: nat)
    requires b.onRing && b.ring.Ring? && k < b.count
    ensures AngleOf(BatchSpawns(b, b.count)[k]) == RingAngle(k, b.count)
    ensures 0.0 <= AngleOf(BatchSpawns(b, b.count)[k]) < TwoPi
    ensures BatchSpawns(b, b.count)[k]
            == AngleSpawn(b.ring, b.guid0 + k, b.enemyType, k as real * (TwoPi / b.count as real), b.maxHealth, b.polar)
  {
    BatchSpawnsAt(b, b.count);
    RingAnglesInTurn(k, b.count);
    var a := k as real * (TwoPi / b.count as real);
    RingAngleIs(k, b.count, TwoPi / b.count as real);
    assert BatchSpawns(b, b.count)[k] == BatchSpawn(b, k);
    assert RingAngle(k, b.count) == a;
    assert BatchSpawn(b, k) == AngleSpawn(b.ring, b.guid0 + k, b.enemyType, RingAngle(k, b.count), b.maxHealth, b.polar);
  }

  /**
   * A batch spawned from the next GUID on keeps the GUIDs issued and
   * apart: appended to a list whose GUIDs lie below guid0, the list's GUIDs
   * lie below guid0 + n and are still distinct.
   */
  lemma BatchSpawnsIssued(es: seq<Enemy>, b: Batch, n: nat)
    requires IssuedIds(es, b.guid0)
    ensures IssuedIds(es + BatchSpawns(b, n), b.guid0 + n)
  {
    var spawned := BatchSpawns(b, n);
    var all := es + spawned;
    BatchSpawnsAt(b, n);
    forall i | 0 <= i < |all|
      ensures 1 <= all[i].id < b.guid0 + n
      ensures i < |es| ==> all[i].id < b.guid0
      ensures i >= |es| ==> all[i].id == b.guid0 + (i - |es|)
    {
      if i >= |es| {
        assert all[i] == spawned[i - |es|];
      }
    }
  }

  /** A batch spawned from guid0 on keeps every GUID of the list below the next one. */
  lemma BatchSpawnsBelow(es: seq<Enemy>, b: Batch, n: nat)
    requires IdsBelow(es, b.guid0)
    ensures IdsBelow(es + BatchSpawns(b, n), b.guid0 + n)
  {
    var spawned := BatchSpawns(b, n);
    BatchSpawnsAt(b, n);
    forall i | 0 <= i < |es + spawned|
      ensures (es + spawned)[i].id < b.guid0 + n
    {
      if i >= |es| {
        assert (es + spawned)[i] == spawned[i - |es|];
      }
    }
  }

  /** A list that grew from base by prefix and then by x grew from base by prefix + [x]. */
  lemma SnocStep<T>(base: seq<T>, prefix: seq<T>, before: seq<T>, after: seq<T>, x: T)
    requires before == base + prefix && after == before + [x]
    ensures after == base + (prefix + [x])
  {
  }

  /** The spawn announcements of n enemies under GUIDs guid0, guid0 + 1, … */
  function SpawnEvents(guid0: Guid, t: EnemyType, maxHealth: real, n: nat): (r: seq<CombatEvent>)
    ensures |r| == n
    ensures forall k :: 0 <= k < n ==> r[k] == SpawnEvent(guid0 + k, t, maxHealth)
  {
    if n == 0 then [] else SpawnEvents(guid0, t, maxHealth, n - 1) + [SpawnEvent(guid0 + (n - 1), t, maxHealth)]
  }

  /** Damage changes an enemy's health and state, never which enemy it is. */
  ghost predicate KeepsIdentity(applyDamage: (Enemy, real) -> (Enemy, bool))
  {
    forall e: Enemy, d: real :: applyDamage(e, d).0.id == e.id
  }

  class EnemyManager {
    var scene: SceneRef
    var enemies: seq<Enemy>
    var events: seq<CombatEvent>
    var nextGuid: Guid
    var enemyMoveSpeed: real
    var enemyAngularVelocity: real
    var enemyAttackInterval: real

    /** Every enemy has a GUID issued so far, and no two share one. */
    ghost predicate Valid()
      reads this
    {
      nextGuid >= 1
      && DistinctIds(enemies)
      && forall i :: 0 <= i < |enemies| ==> 1 <= enemies[i].id < nextGuid
    }

    /** The first i spawns of batch b have been made on top of the enemies e0 and the events v0. */
    ghost predicate SpawnedSoFar(e0: seq<Enemy>, v0: seq<CombatEvent>, b: Batch, i: nat)
      reads this
    {
      nextGuid == b.guid0 + i
      && enemies == e0 + BatchSpawns(b, i)
      && events == v0 + SpawnEvents(b.guid0, b.enemyType, b.maxHealth, i)
    }

    /** No scene, no enemies; speed 100, angular velocity 0.5, attack interval 2. */
    constructor()
      ensures scene == NoScene && enemies == [] && events == [] && nextGuid == 1
      ensures enemyMoveSpeed == 100.0 && enemyAngularVelocity == 0.5 && enemyAttackInterval == 2.0
      ensures Valid()
    {
      scene := NoScene;
      enemies := [];
      events := [];
      nextGuid := 1;
      enemyMoveSpeed := 100.0;
      enemyAngularVelocity := 0.5;
      enemyAttackInterval := 2.0;
    }

    /** Initialize: binds the scene and empties the list. */
    method Initialize(s: SceneRef)
      modifies this
      ensures scene == s && enemies == []
      ensures events == old(events) && nextGuid == old(nextGuid)
      ensures enemyAngularVelocity == old(enemyAngularVelocity)
      ensures old(Valid()) ==> Valid()
    {
      scene := s;
      enemies := [];
    }

    /** SpawnEnemy: appends a fresh enemy under a new GUID and announces it. */
    method SpawnEnemy(t: EnemyType, position: Vec3, maxHealth: real) returns (id: Guid)
      modifies this
      ensures id == old(nextGuid) && nextGuid == old(nextGuid) + 1
      ensures enemies == old(enemies) + [NewEnemy(id, t, position, maxHealth)]
      ensures events == old(events) + [SpawnEvent(id, t, maxHealth)]
      ensures scene == old(scene) && enemyAngularVelocity == old(enemyAngularVelocity)
      ensures old(Valid()) ==> Valid() && id !in Ids(old(enemies))
    {
      id := nextGuid;
      nextGuid := nextGuid + 1;
      var enemy := Enemy(id, t, position, maxHealth, maxHealth, Idle, true, "", map[]);
      match t {
        case CrystalGolem => enemy := enemy.(name := "Crystal Golem");
        case EliteGolem => enemy := enemy.(name := "Elite Golem");
        case BossGolem => enemy := enemy.(name := "Boss Golem");
      }
      enemies := enemies + [enemy];
      BroadcastEnemyEvent(CombatEvent(EnemySpawned, id, map["EnemyType" := TypeCode(t), "MaxHealth" := maxHealth]));
    }

    /** SpawnEnemyAtAngle: no scene gives the invalid GUID and no enemy; otherwise one enemy is spawned as AngleSpawn says. */
    method SpawnEnemyAtAngle(t: EnemyType, angle: real, maxHealth: real, polar: (real, real) -> Vec3) returns (id: Guid)
      requires IdsBelow(enemies, nextGuid)
      modifies this
      ensures IdsBelow(enemies, nextGuid)
      ensures old(Valid()) ==> Valid()
      ensures scene == old(scene) && enemyAngularVelocity == old(enemyAngularVelocity)
      ensures scene.NoScene? ==>
        id == 0 && enemies == old(enemies) && events == old(events) && nextGuid == old(nextGuid)
      ensures scene.Scene? ==>
        id == old(nextGuid) && nextGuid == old(nextGuid) + 1
        && enemies == old(enemies) + [AngleSpawn(RingOf(scene), id, t, angle, maxHealth, polar)]
        && events == old(events) + [SpawnEvent(id, t, maxHealth)]
    {
      if scene.NoScene? {
        return 0;
      }
      if scene.sceneType == "Circular" && scene.circular.Some? {
        id := SpawnOnCircle(t, angle, maxHealth, polar);
        AppendIssued(old(enemies), AngleSpawn(RingOf(scene), id, t, angle, maxHealth, polar), id);
      } else {
        id := SpawnEnemy(t, Zero, maxHealth);
      }
    }

    /** The circular case of SpawnEnemyAtAngle: spawn at the point of the enemy circle, then record the angle on the new entry. */
    method SpawnOnCircle(t: EnemyType, angle: real, maxHealth: real, polar: (real, real) -> Vec3) returns (id: Guid)
      requires IsCircular(scene) && IdsBelow(enemies, nextGuid)
      modifies this
      ensures scene == old(scene) && enemyAngularVelocity == old(enemyAngularVelocity)
      ensures id == old(nextGuid) && nextGuid == old(nextGuid) + 1
      ensures enemies == old(enemies) + [AngleSpawn(RingOf(scene), id, t, angle, maxHealth, polar)]
      ensures events == old(events) + [SpawnEvent(id, t, maxHealth)]
    {
      var c := scene.circular.value;
      var position := c.GetEnemyPosition(angle, polar);
      id := SpawnEnemy(t, position, maxHealth);
      ghost var spawned := enemies;
      assert forall j :: 0 <= j < |old(enemies)| ==> spawned[j].id < id;
      assert spawned[|old(enemies)|].id == id;
      var index := FindEnemyIndex(id);
      assert index == |old(enemies)|;
      if index != -1 {
        enemies := enemies[index := enemies[index].(extraData := enemies[index].extraData["Angle" := angle])];
      }
      assert enemies == old(enemies) + [AngleSpawn(RingOf(scene), id, t, angle, maxHealth, polar)];
    }

    /**
     * SpawnEnemies: with no scene, nothing; otherwise Count enemies (none
     * when Count is not positive) under consecutive GUIDs, laid out as
     * BatchSpawns says, each one announced.
     */
    method SpawnEnemies(t: EnemyType, count: int, maxHealth: real, polar: (real, real) -> Vec3,
                        draw: nat -> (real, real)) returns (ids: seq<Guid>)
      requires Valid()
      modifies this
      ensures Valid()
      ensures scene == old(scene) && enemyAngularVelocity == old(enemyAngularVelocity)
      ensures scene.NoScene? ==>
        ids == [] && enemies == old(enemies) && events == old(events) && nextGuid == old(nextGuid)
      ensures scene.Scene? ==>
        var b := Batch(scene.sceneType == "Circular", RingOf(scene), old(nextGuid), t, count, maxHealth, polar, draw);
        |ids| == (if count < 0 then 0 else count)
        && (forall i :: 0 <= i < |ids| ==> ids[i] == old(nextGuid) + i)
        && nextGuid == old(nextGuid) + |ids|
        && enemies == old(enemies) + BatchSpawns(b, |ids|)
        && events == old(events) + SpawnEvents(old(nextGuid), t, maxHealth, |ids|)
    {
      ids := [];
      if scene.NoScene? {
        return;
      }
      if scene.sceneType == "Circular" {
        ids := SpawnOnRing(t, count, maxHealth, polar, draw);
      } else {
        ids := SpawnScattered(t, count, maxHealth, polar, draw);
      }
    }

    /** The circular branch of SpawnEnemies: Count enemies spread evenly round the enemy circle. */
    method SpawnOnRing(t: EnemyType, count: int, maxHealth: real, polar: (real, real) -> Vec3,
                       draw: nat -> (real, real)) returns (ids: seq<Guid>)
      requires IdsBelow(enemies, nextGuid) && scene.Scene? && scene.sceneType == "Circular"
      modifies this
      ensures old(Valid()) ==> Valid()
      ensures scene == old(scene) && enemyAngularVelocity == old(enemyAngularVelocity)
      ensures |ids| == (if count < 0 then 0 else count)
      ensures forall i :: 0 <= i < |ids| ==> ids[i] == old(nextGuid) + i
      ensures nextGuid == old(nextGuid) + |ids|
      ensures enemies == old(enemies) + BatchSpawns(Batch(true, RingOf(scene), old(nextGuid), t, count, maxHealth, polar, draw), |ids|)
      ensures events == old(events) + SpawnEvents(old(nextGuid), t, maxHealth, |ids|)
    {
      ids := [];
      var b := Batch(true, RingOf(scene), nextGuid, t, count, maxHealth, polar, draw);
      var angleStep := RingStep(count);
      var i := 0;
      while i < count
        invariant scene == old(scene) && enemyAngularVelocity == old(enemyAngularVelocity)
        invariant 0 <= i <= (if count < 0 then 0 else count) && |ids| == i
        invariant forall j :: 0 <= j < i ==> ids[j] == b.guid0 + j
        invariant SpawnedSoFar(old(enemies), old(events), b, i)
      {
        var id := RingNext(old(enemies), old(events), b, i, angleStep);
        ids := ids + [id];
        i := i + 1;
      }
      if old(Valid()) {
        BatchSpawnsIssued(old(enemies), b, i);
      }
    }

    /** One round of SpawnOnRing's loop: the i-th enemy at i steps of the ring step. */
    method RingNext(ghost e0: seq<Enemy>, ghost v0: seq<CombatEvent>, b: Batch, i: nat, angleStep: real) returns (id: Guid)
      requires b.onRing && angleStep == RingStep(b.count) && IdsBelow(e0, b.guid0)
      requires scene.Scene? && scene.sceneType == "Circular" && RingOf(scene) == b.ring
      requires SpawnedSoFar(e0, v0, b, i)
      modifies this
      ensures SpawnedSoFar(e0, v0, b, i + 1) && id == b.guid0 + i
      ensures scene == old(scene) && enemyAngularVelocity == old(enemyAngularVelocity)
    {
      var angle := i as real * angleStep;
      RingAngleIs(i, b.count, angleStep);
      BatchSpawnsBelow(e0, b, i);
      assert this !in SceneObjects(scene);
      id := SpawnEnemyAtAngle(b.enemyType, angle, b.maxHealth, b.polar);
      SnocStep(e0, BatchSpawns(b, i), old(enemies), enemies, BatchSpawn(b, i));
      SnocStep(v0, SpawnEvents(b.guid0, b.enemyType, b.maxHealth, i), old(events), events, SpawnEvent(id, b.enemyType, b.maxHealth));
    }

    /** The other branch of SpawnEnemies: Count enemies at drawn points of the plane Z = 0. */
    method SpawnScattered(t: EnemyType, count: int, maxHealth: real, polar: (real, real) -> Vec3,
                          draw: nat -> (real, real)) returns (ids: seq<Guid>)
      requires scene.Scene? && scene.sceneType != "Circular"
      modifies this
      ensures old(Valid()) ==> Valid()
      ensures scene == old(scene) && enemyAngularVelocity == old(enemyAngularVelocity)
      ensures |ids| == (if count < 0 then 0 else count)
      ensures forall i :: 0 <= i < |ids| ==> ids[i] == old(nextGuid) + i
      ensures nextGuid == old(nextGuid) + |ids|
      ensures enemies == old(enemies) + BatchSpawns(Batch(false, RingOf(scene), old(nextGuid), t, count, maxHealth, polar, draw), |ids|)
      ensures events == old(events) + SpawnEvents(old(nextGuid), t, maxHealth, |ids|)
    {
      ids := [];
      var b := Batch(false, RingOf(scene), nextGuid, t, count, maxHealth, polar, draw);
      var i := 0;
      while i < count
        invariant scene == old(scene) && enemyAngularVelocity == old(enemyAngularVelocity)
        invariant 0 <= i <= (if count < 0 then 0 else count) && |ids| == i
        invariant forall j :: 0 <= j < i ==> ids[j] == b.guid0 + j
        invariant SpawnedSoFar(old(enemies), old(events), b, i)
      {
        var id := ScatterNext(old(enemies), old(events), b, i);
        ids := ids + [id];
        i := i + 1;
      }
      if old(Valid()) {
        BatchSpawnsIssued(old(enemies), b, i);
      }
    }

    /** One round of SpawnScattered's loop: the i-th enemy at the i-th drawn point. */
    method ScatterNext(ghost e0: seq<Enemy>, ghost v0: seq<CombatEvent>, b: Batch, i: nat) returns (id: Guid)
      requires !b.onRing && SpawnedSoFar(e0, v0, b, i)
      modifies this
      ensures SpawnedSoFar(e0, v0, b, i + 1) && id == b.guid0 + i
      ensures scene == old(scene) && enemyAngularVelocity == old(enemyAngularVelocity)
    {
      var position := Vec3(b.draw(i).0, b.draw(i).1, 0.0);
      id := SpawnEnemy(b.enemyType, position, b.maxHealth);
      SnocStep(e0, BatchSpawns(b, i), old(enemies), enemies, BatchSpawn(b, i));
      SnocStep(v0, SpawnEvents(b.guid0, b.enemyType, b.maxHealth, i), old(events), events, SpawnEvent(id, b.enemyType, b.maxHealth));
    }

    /** UpdateEnemy: moves one enemy as Moved says; the falling movement and the attack do nothing. */
    method UpdateEnemy(e: Enemy, dt: real, polar: (real, real) -> Vec3) returns (r: Enemy)
      ensures r == Moved(RingOf(scene), e, enemyAngularVelocity, dt, polar)
    {
      r := e;
      if scene.Scene? && scene.sceneType == "Circular" && scene.circular.Some? {
        var c := scene.circular.value;
        var current := if "Angle" in e.extraData then e.extraData["Angle"] else 0.0;
        var angularVelocity := enemyAngularVelocity;
        var newAngle := c.UpdateEnemyAngle(current, angularVelocity, dt);
        var position := c.GetEnemyPosition(newAngle, polar);
        r := e.(position := position, extraData := e.extraData["Angle" := newAngle]);
        MovedTo(c.center, c.enemyRadius, e, angularVelocity, dt, polar, newAngle, position);
      }
    }

    /** UpdateEnemies: every active enemy is moved, the others are left as they are. */
    method UpdateEnemies(dt: real, polar: (real, real) -> Vec3)
      modifies this
      ensures |enemies| == |old(enemies)|
      ensures forall i :: 0 <= i < |enemies| ==>
        enemies[i] == if old(enemies)[i].isActive then Moved(RingOf(scene), old(enemies)[i], enemyAngularVelocity, dt, polar)
                      else old(enemies)[i]
      ensures scene == old(scene) && events == old(events) && nextGuid == old(nextGuid)
      ensures enemyAngularVelocity == old(enemyAngularVelocity)
      ensures old(Valid()) ==> Valid()
    {
      var i := 0;
      while i < |enemies|
        invariant 0 <= i <= |enemies| == |old(enemies)|
        invariant scene == old(scene) && events == old(events) && nextGuid == old(nextGuid)
        invariant enemyAngularVelocity == old(enemyAngularVelocity)
        invariant forall j :: 0 <= j < i ==>
          enemies[j] == if old(enemies)[j].isActive then Moved(RingOf(scene), old(enemies)[j], enemyAngularVelocity, dt, polar)
                        else old(enemies)[j]
        invariant forall j :: i <= j < |enemies| ==> enemies[j] == old(enemies)[j]
        invariant forall j :: 0 <= j < |enemies| ==> enemies[j].id == old(enemies)[j].id
      {
        if enemies[i].isActive {
          var moved := UpdateEnemy(enemies[i], dt, polar);
          enemies := enemies[i := moved];
        }
        i := i + 1;
      }
    }

    /** ApplyDamageToEnemy: an unknown id changes nothing; a known one is damaged and the hit is announced. */
    method ApplyDamageToEnemy(id: Guid, damage: real, applyDamage: (Enemy, real) -> (Enemy, bool)) returns (died: bool)
      modifies this
      ensures IndexOf(old(enemies), id) == -1 ==> !died && enemies == old(enemies) && events == old(events)
      ensures var k := IndexOf(old(enemies), id);
        k >= 0 ==>
          var hit := applyDamage(old(enemies)[k], damage);
          died == hit.1 && enemies == old(enemies)[k := hit.0]
          && events == old(events) + [CombatEvent(if hit.1 then EnemyKilled else EnemyDamaged, id,
                                                  map["Damage" := damage, "RemainingHealth" := hit.0.health])]
      ensures scene == old(scene) && nextGuid == old(nextGuid)
      // a hit that leaves the enemy's identifier alone keeps the manager valid
      ensures old(Valid()) && KeepsIdentity(applyDamage) ==> Valid()
    {
      var index := FindEnemyIndex(id);
      if index == -1 {
        return false;
      }
      var hit := applyDamage(enemies[index], damage);
      enemies := enemies[index := hit.0];
      died := hit.1;
      var kind := if died then EnemyKilled else EnemyDamaged;
      BroadcastEnemyEvent(CombatEvent(kind, id, map["Damage" := damage, "RemainingHealth" := enemies[index].health]));
    }

    /** RemoveEnemy: takes out the first enemy with the id; reports whether there was one. */
    method RemoveEnemy(id: Guid) returns (removed: bool)
      modifies this
      ensures removed <==> id in Ids(old(enemies))
      ensures !removed ==> enemies == old(enemies)
      ensures removed ==>
        var k := IndexOf(old(enemies), id);
        enemies == old(enemies)[..k] + old(enemies)[k + 1..]
      ensures old(Valid()) ==> Valid() && id !in Ids(enemies)
      ensures scene == old(scene) && events == old(events) && nextGuid == old(nextGuid)
    {
      IndexOfIds(enemies, id);
      var index := FindEnemyIndex(id);
      if index == -1 {
        return false;
      }
      if old(Valid()) {
        RemoveAtIssued(enemies, index, nextGuid);
      }
      enemies := enemies[..index] + enemies[index + 1..];
      return true;
    }

    /** RemoveDeadEnemies: keeps the living enemies in order; returns how many went. */
    method RemoveDeadEnemies(alive: Enemy -> bool) returns (count: int)
      modifies this
      ensures enemies == AliveOf(old(enemies), alive)
      ensures count == |old(enemies)| - |enemies|
      ensures old(Valid()) ==> Valid()
      ensures scene == old(scene) && events == old(events) && nextGuid == old(nextGuid)
    {
      ghost var s := enemies;
      ghost var kept: seq<Enemy> := [];
      count := 0;
      var i := |enemies| - 1;
      while i >= 0
        invariant -1 <= i < |s|
        invariant kept == AliveOf(s[i + 1..], alive)
        invariant enemies == s[..i + 1] + kept
        invariant count == |s| - (i + 1) - |kept|
        invariant scene == old(scene) && events == old(events) && nextGuid == old(nextGuid)
        decreases i
      {
        assert s[i..][1..] == s[i + 1..];
        assert enemies[i] == s[i];
        if !alive(enemies[i]) {
          assert enemies[..i] == s[..i] && enemies[i + 1..] == kept;
          enemies := enemies[..i] + enemies[i + 1..];
          count := count + 1;
        } else {
          ghost var prev := kept;
          kept := [s[i]] + kept;
          assert s[..i + 1] + prev == s[..i] + kept;
        }
        i := i - 1;
      }
      assert i == -1;
      assert count == |s| - |kept|;
      assert s[0..] == s && s[..0] == [];
      assert enemies == kept;
      assert count == |s| - |enemies|;
      if old(Valid()) {
        assert DistinctIds(enemies) by {
          AliveOfIds(s, alive);
        }
        forall k | 0 <= k < |enemies|
          ensures 1 <= enemies[k].id < nextGuid
        {
          AliveOfMembers(s, alive);
          assert enemies[k] in s;
        }
      }
    }

    /** ClearAllEnemies. */
    method ClearAllEnemies()
      modifies this
      ensures enemies == []
      ensures scene == old(scene) && events == old(events) && nextGuid == old(nextGuid)
      ensures old(Valid()) ==> Valid()
    {
      enemies := [];
    }

    /** FindEnemy: the first enemy with the id; the caller's record is handed back when there is none. */
    method FindEnemy(id: Guid, outEnemy: Enemy) returns (found: bool, enemy: Enemy)
      ensures found <==> id in Ids(enemies)
      ensures found ==> enemy in enemies && enemy.id == id && enemy == enemies[IndexOf(enemies, id)]
      ensures !found ==> enemy == outEnemy
    {
      IndexOfIds(enemies, id);
      var index := FindEnemyIndex(id);
      if index == -1 {
        return false, outEnemy;
      }
      return true, enemies[index];
    }

    /** GetAliveEnemies: the living enemies, in list order. */
    method GetAliveEnemies(alive: Enemy -> bool) returns (result: seq<Enemy>)
      ensures result == AliveOf(enemies, alive)
    {
      result := [];
      for i := 0 to |enemies|
        invariant result == AliveOf(enemies[..i], alive)
      {
        AliveOfAppend(enemies[..i], [enemies[i]], alive);
        assert enemies[..i + 1] == enemies[..i] + [enemies[i]];
        if alive(enemies[i]) {
          result := result + [enemies[i]];
        }
      }
      assert enemies[..|enemies|] == enemies;
    }

    /** GetAliveEnemyCount: how many enemies are alive. */
    method GetAliveEnemyCount(alive: Enemy -> bool) returns (count: int)
      ensures count == |AliveOf(enemies, alive)|
    {
      count := 0;
      for i := 0 to |enemies|
        invariant count == |AliveOf(enemies[..i], alive)|
      {
        AliveOfAppend(enemies[..i], [enemies[i]], alive);
        assert enemies[..i + 1] == enemies[..i] + [enemies[i]];
        if alive(enemies[i]) {
          count := count + 1;
        }
      }
      assert enemies[..|enemies|] == enemies;
    }

    /**
     * GetNearestEnemy: the living enemy closest to the point, the earliest
     * one on a tie; the caller's record is handed back when none is alive.
     * Distances are compared through their squares.
     */
    method GetNearestEnemy(position: Vec3, alive: Enemy -> bool, outEnemy: Enemy) returns (found: bool, enemy: Enemy)
      ensures found <==> exists i :: 0 <= i < |enemies| && alive(enemies[i])
      ensures !found ==> enemy == outEnemy
      ensures found ==> exists k :: IsNearest(enemies, position, alive, k) && enemy == enemies[k]
    {
      var nearest := -1;
      var best := 0.0;
      for i := 0 to |enemies|
        invariant -1 <= nearest < i
        invariant nearest == -1 <==> forall j :: 0 <= j < i ==> !alive(enemies[j])
        invariant nearest >= 0 ==> IsNearest(enemies[..i], position, alive, nearest)
        invariant nearest >= 0 ==> best == DistSquared(position, enemies[nearest].position)
      {
        if alive(enemies[i]) {
          var d := DistSquared(position, enemies[i].position);
          if nearest == -1 || d < best {
            best := d;
            nearest := i;
          }
        }
      }
      assert enemies[..|enemies|] == enemies;
      if nearest != -1 {
        return true, enemies[nearest];
      }
      return false, outEnemy;
    }

    /** BroadcastEnemyEvent: the event goes to every listener, here onto the log. */
    method BroadcastEnemyEvent(event: CombatEvent)
      modifies this
      ensures events == old(events) + [event]
      ensures scene == old(scene) && enemies == old(enemies) && nextGuid == old(nextGuid)
      ensures enemyAngularVelocity == old(enemyAngularVelocity)
    {
      events := events + [event];
    }

    /** FindEnemyIndex: the position of the first enemy with the id, or -1. */
    method FindEnemyIndex(id: Guid) returns (index: int)
      ensures index == IndexOf(enemies, id)
    {
      for i := 0 to |enemies|
        invariant forall j :: 0 <= j < i ==> enemies[j].id != id
      {
        if enemies[i].id == id {
          return i;
        }
      }
      return -1;
    }
  }
}
