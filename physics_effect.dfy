/**
 * UPhysicsEffectBase and the two effects with interpreted behaviour,
 * UWormholeEffect and UVelocityModifierEffect. The subclasses become one
 * class whose Behaviour field says which ApplyEffectInternal runs; the
 * wormhole's cooldown table and the modifier's applied set are fields of
 * that class, used only by their own behaviour.
 */
module PhysicsEffects {
  import opened UnrealMath
  import opened Vectors

  /** EPhysicsEffectType. */
  datatype EffectType = GravityField | Wormhole | Split | VelocityModifier | ChainTrigger | Custom

  /** The part of FMarbleState the effects read or write; the identifier stands for the marble's FGuid. */
  datatype Marble = Marble(id: nat, position: Vec3, velocity: Vec3)

  /** EVelocityModifierType and EAreaType. */
  datatype ModifierKind = Multiply | Add | Set
  datatype AreaShape = Sphere | Box | Cylinder

  /** UWormholeEffect's configuration. */
  datatype WormholeConfig = WormholeConfig(
    entrance: Vec3,
    exit: Vec3,
    entranceRadius: real,
    exitVelocityMultiplier: real,
    preserveVelocityDirection: bool,
    teleportCooldown: real)

  const DefaultWormhole := WormholeConfig(Vec3(0.0, 0.0, 0.0), Vec3(0.0, 0.0, 0.0), 50.0, 1.0, true, 0.5)

  /** UVelocityModifierEffect's configuration. */
  datatype ModifierConfig = ModifierConfig(
    kind: ModifierKind,
    value: Vec3,
    area: AreaShape,
    center: Vec3,
    size: Vec3,
    applyEveryFrame: bool)

  const DefaultModifier := ModifierConfig(Multiply, Vec3(1.0, 1.0, 1.0), Sphere, Vec3(0.0, 0.0, 0.0), Vec3(100.0, 100.0, 100.0), false)

  /** Which ApplyEffectInternal runs: the base class's (changes nothing), the wormhole's or the modifier's. */
  datatype Behaviour = Inert | WormholeAt(w: WormholeConfig) | ModifierIn(v: ModifierConfig)

  /** Every field of an effect. */
  datatype EffectState = EffectState(
    effectType: EffectType,
    id: nat,
    duration: real,
    active: bool,
    elapsed: real,
    behaviour: Behaviour,
    cooldowns: map<nat, real>,
    applied: set<nat>)

  // ---------------------------------------------------------------------
  // Lifetime.

  /** ShouldRemove: inactive, or timed (duration not negative) and that time has elapsed. */
  predicate Expired(s: EffectState)
  {
    !s.active || (s.duration >= 0.0 && s.elapsed >= s.duration)
  }

  /** GetRemainingTime: -1 for a permanent effect, otherwise the time left, never below 0. */
  function RemainingTime(s: EffectState): (t: real)
    ensures s.duration < 0.0 ==> t == -1.0
    ensures s.duration >= 0.0 ==> t >= 0.0 && t == Max(0.0, s.duration - s.elapsed)
  {
    if s.duration < 0.0 then -1.0 else Max(0.0, s.duration - s.elapsed)
  }

  /** An active timed effect is due for removal exactly when no time remains. */
  lemma ExpiredIffNoTimeLeft(s: EffectState)
    requires s.active && s.duration >= 0.0
    ensures Expired(s) <==> RemainingTime(s) == 0.0
  {
  }

  /** A permanent effect is removed only once deactivated. */
  lemma PermanentExpiresOnlyInactive(s: EffectState)
    requires s.duration < 0.0
    ensures Expired(s) <==> !s.active
  {
  }

  // ---------------------------------------------------------------------
  // Wormhole.

  /** UpdateCooldowns: every entry lowered by dt; entries that reach 0 or below are dropped. */
  function Cooled(c: map<nat, real>, dt: real): (r: map<nat, real>)
    ensures forall id :: id in r <==> id in c && c[id] - dt > 0.0
    ensures forall id :: id in r ==> r[id] == c[id] - dt && r[id] > 0.0
  {
    map id | id in c && c[id] - dt > 0.0 :: c[id] - dt
  }

  /** IsAtEntrance: within EntranceRadius of the entrance. */
  predicate AtEntrance(w: WormholeConfig, p: Vec3)
  {
    DistAtMost(DistSquared(p, w.entrance), w.entranceRadius)
  }

  /** CanTeleport: no cooldown entry, or one that has run out. */
  predicate MayTeleport(c: map<nat, real>, id: nat)
  {
    id !in c || c[id] <= 0.0
  }

  /** Right after cooling, a marble may teleport exactly when it has no entry left. */
  lemma MayTeleportAfterCooling(c: map<nat, real>, dt: real, id: nat)
    ensures MayTeleport(Cooled(c, dt), id) <==> id !in Cooled(c, dt)
  {
  }

  /**
   * The wormhole's ApplyEffectInternal: cool every entry, then teleport a
   * marble at the entrance that may teleport. The velocity a teleport gives
   * without preserveVelocityDirection is the random draw scattered.
   */
  function Teleported(w: WormholeConfig, c: map<nat, real>, m: Marble, dt: real, scattered: Vec3): (r: (map<nat, real>, Marble))
    ensures r.1.id == m.id
  {
    var c1 := Cooled(c, dt);
    if !AtEntrance(w, m.position) || !MayTeleport(c1, m.id) then (c1, m)
    else
      var v := if w.preserveVelocityDirection then m.velocity.Scale(w.exitVelocityMultiplier) else scattered;
      (c1[m.id := w.teleportCooldown], m.(position := w.exit, velocity := v))
  }

  /** A marble away from the entrance, or still cooling down, is untouched; the table is only cooled. */
  lemma WormholeIgnores(w: WormholeConfig, c: map<nat, real>, m: Marble, dt: real, scattered: Vec3)
    requires !AtEntrance(w, m.position) || (m.id in c && c[m.id] - dt > 0.0)
    ensures Teleported(w, c, m, dt, scattered) == (Cooled(c, dt), m)
  {
  }

  /**
   * A marble at the entrance with no live cooldown lands on the exit, its
   * velocity scaled when the direction is preserved, and its cooldown is
   * recorded; every other entry is only cooled.
   */
  lemma WormholeTeleports(w: WormholeConfig, c: map<nat, real>, m: Marble, dt: real, scattered: Vec3)
    requires AtEntrance(w, m.position) && (m.id !in c || c[m.id] - dt <= 0.0)
    ensures var (c2, m2) := Teleported(w, c, m, dt, scattered);
      && m2.position == w.exit
      && (w.preserveVelocityDirection ==> m2.velocity == m.velocity.Scale(w.exitVelocityMultiplier))
      && c2 == Cooled(c, dt)[m.id := w.teleportCooldown]
  {
  }

  /** A teleported marble is not teleported again while its recorded cooldown lasts. */
  lemma TeleportCoolsDown(w: WormholeConfig, c: map<nat, real>, m: Marble, dt: real, dt2: real, s1: Vec3, s2: Vec3)
    requires AtEntrance(w, m.position) && (m.id !in c || c[m.id] - dt <= 0.0)
    requires w.teleportCooldown - dt2 > 0.0
    ensures var (c2, m2) := Teleported(w, c, m, dt, s1);
      Teleported(w, c2, m2, dt2, s2).1 == m2
  {
  }

  // ---------------------------------------------------------------------
  // Velocity modifier.

  /**
   * IsInArea: a sphere of radius size.x; a box centred on the centre with
   * full extents size (strictly inside); a cylinder of radius size.x and
   * height size.z.
   */
  predicate InArea(v: ModifierConfig, p: Vec3)
  {
    match v.area
    case Sphere => InSphere(v.center, v.size.x, p)
    case Box => InBox(v.center, v.size, p)
    case Cylinder => InCylinder(v.center, v.size.x, v.size.z, p)
  }

  /** FVector::Dist(p, centre) <= radius. */
  predicate InSphere(centre: Vec3, radius: real, p: Vec3)
  {
    DistAtMost(DistSquared(p, centre), radius)
  }

  /** FBox(centre - size / 2, centre + size / 2).IsInside(p): strictly between the corners. */
  predicate InBox(centre: Vec3, size: Vec3, p: Vec3)
  {
    var lo := centre.Sub(size.Scale(0.5));
    var hi := centre.Add(size.Scale(0.5));
    lo.x < p.x < hi.x && lo.y < p.y < hi.y && lo.z < p.z < hi.z
  }

  /** Planar distance at most the radius and height difference at most half the height. */
  predicate InCylinder(centre: Vec3, radius: real, height: real, p: Vec3)
  {
    DistAtMost(p.Sub(centre).SizeSquared2D(), radius) && Abs(p.z - centre.z) <= height * 0.5
  }

  /** The squared test is FVector::Dist(p, centre) <= radius, for the distance d itself. */
  lemma SphereByDistance(centre: Vec3, radius: real, p: Vec3, d: real)
    requires d >= 0.0 && d * d == DistSquared(p, centre)
    ensures InSphere(centre, radius, p) <==> d <= radius
  {
    DistPredicates(d, radius);
  }

  /** The box is centred on its centre: each coordinate lies less than half the extent away. */
  lemma BoxIsCentred(centre: Vec3, size: Vec3, p: Vec3)
    ensures InBox(centre, size, p) <==>
      Abs(p.x - centre.x) < size.x * 0.5 && Abs(p.y - centre.y) < size.y * 0.5 && Abs(p.z - centre.z) < size.z * 0.5
  {
  }

  /** The cylinder test, for the planar distance d itself. */
  lemma CylinderByDistance(centre: Vec3, radius: real, height: real, p: Vec3, d: real)
    requires d >= 0.0 && d * d == p.Sub(centre).SizeSquared2D()
    ensures InCylinder(centre, radius, height, p) <==> d <= radius && Abs(p.z - centre.z) <= height * 0.5
  {
    DistPredicates(d, radius);
  }

  /** The new velocity: component-wise product, value times dt added, or value itself. */
  function ModifiedVelocity(v: ModifierConfig, vel: Vec3, dt: real): (r: Vec3)
    ensures v.kind == Multiply ==> r == Vec3(vel.x * v.value.x, vel.y * v.value.y, vel.z * v.value.z)
    ensures v.kind == Add ==> r == Vec3(vel.x + v.value.x * dt, vel.y + v.value.y * dt, vel.z + v.value.z * dt)
    ensures v.kind == Set ==> r == v.value
  {
    match v.kind
    case Multiply => vel.Mul(v.value)
    case Add => vel.Add(v.value.Scale(dt))
    case Set => v.value
  }

  /**
   * The modifier's ApplyEffectInternal: leaving the area forgets the
   * marble; inside, it is modified unless it was already modified during
   * this stay, which is recorded unless every frame applies.
   */
  function Modified(v: ModifierConfig, applied: set<nat>, m: Marble, dt: real): (r: (set<nat>, Marble))
    ensures r.1.id == m.id && r.1.position == m.position
  {
    if !InArea(v, m.position) then (applied - {m.id}, m)
    else if !v.applyEveryFrame && m.id in applied then (applied, m)
    else
      var m2 := m.(velocity := ModifiedVelocity(v, m.velocity, dt));
      (if !v.applyEveryFrame then applied + {m.id} else applied, m2)
  }

  /** Outside the area the velocity is kept and the marble is forgotten. */
  lemma ModifierOutside(v: ModifierConfig, applied: set<nat>, m: Marble, dt: real)
    requires !InArea(v, m.position)
    ensures Modified(v, applied, m, dt) == (applied - {m.id}, m)
  {
  }

  /**
   * Once per stay: without applyEveryFrame, a marble that is still in the
   * area is not modified a second time, whatever dt is.
   */
  lemma ModifierOncePerStay(v: ModifierConfig, applied: set<nat>, m: Marble, dt: real, dt2: real)
    requires !v.applyEveryFrame && InArea(v, m.position)
    ensures var (a1, m1) := Modified(v, applied, m, dt);
      m1.id in a1 && Modified(v, a1, m1, dt2) == (a1, m1)
  {
  }

  /** After leaving the area and coming back, the marble is modified again. */
  lemma ModifierAgainAfterLeaving(v: ModifierConfig, applied: set<nat>, m: Marble, outside: Vec3, dt: real)
    requires !InArea(v, outside) && InArea(v, m.position)
    ensures var (a1, _) := Modified(v, applied, m.(position := outside), dt);
      Modified(v, a1, m, dt).1 == m.(velocity := ModifiedVelocity(v, m.velocity, dt))
  {
  }

  // ---------------------------------------------------------------------
  // One application.

  /** ApplyEffectInternal, as the behaviour selects it. */
  function Internal(s: EffectState, m: Marble, dt: real, scattered: Vec3): (r: (EffectState, Marble))
    ensures r.0 == s.(cooldowns := r.0.cooldowns, applied := r.0.applied)
    ensures r.1.id == m.id
  {
    match s.behaviour
    case Inert => (s, m)
    case WormholeAt(w) =>
      var (c, m2) := Teleported(w, s.cooldowns, m, dt, scattered);
      (s.(cooldowns := c), m2)
    case ModifierIn(v) =>
      var (a, m2) := Modified(v, s.applied, m, dt);
      (s.(applied := a), m2)
  }

  /** ApplyEffect: nothing when inactive; otherwise the elapsed time grows by dt, then the behaviour runs. */
  function Apply(s: EffectState, m: Marble, dt: real, scattered: Vec3): (r: (EffectState, Marble))
    ensures !s.active ==> r == (s, m)
    ensures s.active ==> r.0.elapsed == s.elapsed + dt
    ensures r.0.id == s.id && r.0.active == s.active && r.0.duration == s.duration
    ensures r.0.effectType == s.effectType && r.0.behaviour == s.behaviour
    ensures r.1.id == m.id
  {
    if !s.active then (s, m)
    else Internal(s.(elapsed := s.elapsed + dt), m, dt, scattered)
  }

  /** An active timed effect ages by dt per application, so n applications of dt expire it once n * dt covers the rest of its duration. */
  lemma AgesTowardsExpiry(s: EffectState, m: Marble, dt: real, scattered: Vec3)
    requires s.active && s.duration >= 0.0 && s.elapsed + dt >= s.duration
    ensures Expired(Apply(s, m, dt, scattered).0)
  {
  }

  // ---------------------------------------------------------------------
  // The class.

  class PhysicsEffect {
    var effectType: EffectType
    var effectId: nat
    var duration: real
    var isActive: bool
    var elapsedTime: real
    var behaviour: Behaviour
    var cooldowns: map<nat, real>
    var appliedMarbles: set<nat>

    function State(): EffectState
      reads this
    {
      EffectState(effectType, effectId, duration, isActive, elapsedTime, behaviour, cooldowns, appliedMarbles)
    }

    /** UPhysicsEffectBase(): a permanent, active, custom effect with a new identifier. */
    constructor(id: nat)
      ensures State() == EffectState(Custom, id, -1.0, true, 0.0, Inert, map[], {})
    {
      effectType := Custom;
      effectId := id;
      duration := -1.0;
      isActive := true;
      elapsedTime := 0.0;
      behaviour := Inert;
      cooldowns := map[];
      appliedMarbles := {};
    }

    /** UWormholeEffect(): the wormhole defaults. */
    constructor NewWormhole(id: nat)
      ensures State() == EffectState(Wormhole, id, -1.0, true, 0.0, WormholeAt(DefaultWormhole), map[], {})
    {
      effectType := Wormhole;
      effectId := id;
      duration := -1.0;
      isActive := true;
      elapsedTime := 0.0;
      behaviour := WormholeAt(DefaultWormhole);
      cooldowns := map[];
      appliedMarbles := {};
    }

    /** UVelocityModifierEffect(): the modifier defaults. */
    constructor NewVelocityModifier(id: nat)
      ensures State() == EffectState(VelocityModifier, id, -1.0, true, 0.0, ModifierIn(DefaultModifier), map[], {})
    {
      effectType := VelocityModifier;
      effectId := id;
      duration := -1.0;
      isActive := true;
      elapsedTime := 0.0;
      behaviour := ModifierIn(DefaultModifier);
      cooldowns := map[];
      appliedMarbles := {};
    }

    /** ShouldRemove. */
    function ShouldRemove(): (b: bool)
      reads this
      // an inactive effect is always removed
      ensures !isActive ==> b
      // an active timed effect is removed exactly when GetRemainingTime reaches 0
      ensures isActive && duration >= 0.0 ==> (b <==> GetRemainingTime() == 0.0)
      // an active permanent effect is never removed
      ensures isActive && duration < 0.0 ==> !b
    {
      Expired(State())
    }

    /** GetRemainingTime. */
    function GetRemainingTime(): (t: real)
      reads this
      ensures duration < 0.0 ==> t == -1.0
      // a timed effect has time left, never negative, that with the elapsed time covers the duration
      ensures duration >= 0.0 ==> t >= 0.0 && t + elapsedTime >= duration
      ensures duration >= 0.0 ==> (t == 0.0 <==> elapsedTime >= duration)
    {
      RemainingTime(State())
    }

    /** SetActive. */
    method SetActive(active: bool)
      modifies this
      ensures State() == old(State()).(active := active)
    {
      isActive := active;
    }

    /**
     * Reset: elapsed time 0, active, the new identifier; a wormhole also
     * forgets its cooldowns (its override), a modifier keeps its set.
     */
    method Reset(newId: nat)
      modifies this
      ensures State() == old(State()).(elapsed := 0.0, active := true, id := newId,
        cooldowns := if old(behaviour).WormholeAt? then map[] else old(cooldowns))
    {
      elapsedTime := 0.0;
      isActive := true;
      effectId := newId;
      if behaviour.WormholeAt? {
        cooldowns := map[];
      }
    }

    /** ApplyEffect, as Apply states it. */
    method ApplyEffect(m: Marble, dt: real, scattered: Vec3) returns (m2: Marble)
      modifies this
      ensures (State(), m2) == Apply(old(State()), m, dt, scattered)
    {
      if !isActive {
        return m;
      }
      elapsedTime := elapsedTime + dt;
      match behaviour
      case Inert =>
        m2 := m;
      case WormholeAt(w) =>
        m2 := ApplyWormhole(w, m, dt, scattered);
      case ModifierIn(v) =>
        m2 := ApplyModifier(v, m, dt);
    }

    /** The wormhole's ApplyEffectInternal. */
    method ApplyWormhole(w: WormholeConfig, m: Marble, dt: real, scattered: Vec3) returns (m2: Marble)
      modifies this
      ensures (cooldowns, m2) == Teleported(w, old(cooldowns), m, dt, scattered)
      ensures State() == old(State()).(cooldowns := cooldowns)
    {
      UpdateCooldowns(dt);
      if !AtEntrance(w, m.position) {
        return m;
      }
      if !CanTeleport(m.id) {
        return m;
      }
      var v := if w.preserveVelocityDirection then m.velocity.Scale(w.exitVelocityMultiplier) else scattered;
      m2 := m.(position := w.exit, velocity := v);
      cooldowns := cooldowns[m.id := w.teleportCooldown];
    }

    /** CanTeleport. */
    function CanTeleport(id: nat): (b: bool)
      reads this
      // a marble without an entry may always teleport
      ensures id !in cooldowns ==> b
      // while every kept cooldown is positive, as UpdateCooldowns leaves them, only marbles without an entry may
      ensures (forall k | k in cooldowns :: cooldowns[k] > 0.0) ==> (b <==> id !in cooldowns)
    {
      MayTeleport(cooldowns, id)
    }

    /** UpdateCooldowns: lower every entry, collect the spent ones, then remove them. */
    method UpdateCooldowns(dt: real)
      modifies this
      ensures cooldowns == Cooled(old(cooldowns), dt)
      ensures State() == old(State()).(cooldowns := cooldowns)
    {
      ghost var c0 := cooldowns;
      var expired := LowerCooldowns(dt);
      DropCooldowns(expired);
      assert cooldowns == Cooled(c0, dt);
    }

    /** The first pass of UpdateCooldowns: lower every entry by dt and collect those at or below 0. */
    method LowerCooldowns(dt: real) returns (expired: set<nat>)
      modifies this
      ensures cooldowns == map id | id in old(cooldowns) :: old(cooldowns)[id] - dt
      ensures expired == set id | id in old(cooldowns) && old(cooldowns)[id] - dt <= 0.0
      ensures State() == old(State()).(cooldowns := cooldowns)
    {
      var lowered := cooldowns;
      var todo := lowered.Keys;
      expired := {};
      while todo != {}
        invariant todo <= cooldowns.Keys && lowered.Keys == cooldowns.Keys
        invariant forall id :: id in todo ==> lowered[id] == cooldowns[id]
        invariant forall id :: id in cooldowns && id !in todo ==> lowered[id] == cooldowns[id] - dt
        invariant forall id :: id in expired <==> id in cooldowns && id !in todo && cooldowns[id] - dt <= 0.0
        decreases todo
      {
        var id :| id in todo;
        lowered := lowered[id := lowered[id] - dt];
        if lowered[id] <= 0.0 {
          expired := expired + {id};
        }
        todo := todo - {id};
      }
      cooldowns := lowered;
    }

    /** The second pass of UpdateCooldowns: remove each collected entry. */
    method DropCooldowns(expired: set<nat>)
      modifies this
      ensures cooldowns == old(cooldowns) - expired
      ensures State() == old(State()).(cooldowns := cooldowns)
    {
      var todo := expired;
      while todo != {}
        invariant cooldowns == old(cooldowns) - (expired - todo)
        invariant State() == old(State()).(cooldowns := cooldowns)
        decreases todo
      {
        var id :| id in todo;
        cooldowns := cooldowns - {id};
        todo := todo - {id};
      }
    }

    /** The velocity modifier's ApplyEffectInternal. */
    method ApplyModifier(v: ModifierConfig, m: Marble, dt: real) returns (m2: Marble)
      modifies this
      ensures (appliedMarbles, m2) == Modified(v, old(appliedMarbles), m, dt)
      ensures State() == old(State()).(applied := appliedMarbles)
    {
      if !InArea(v, m.position) {
        appliedMarbles := appliedMarbles - {m.id};
        return m;
      }
      if !v.applyEveryFrame && m.id in appliedMarbles {
        return m;
      }
      var vel := m.velocity;
      match v.kind {
        case Multiply => vel := vel.Mul(v.value);
        case Add => vel := vel.Add(v.value.Scale(dt));
        case Set => vel := v.value;
      }
      m2 := m.(velocity := vel);
      if !v.applyEveryFrame {
        appliedMarbles := appliedMarbles + {m.id};
      }
    }
  }
}
