/**
 * UPhysicsEffectManager: a list of registered effects and a map from effect
 * identifier to effect, kept in step, applied to every marble each update.
 */
module PhysicsManager {
  import opened Vectors
  import opened PhysicsEffects

  /** The identifier returned when nothing was added (an invalid FGuid). */
  const InvalidId: nat := 0

  // ---------------------------------------------------------------------
  // Specification of one update.

  /**
   * One effect applied to every marble in order, as UpdateEffects does for
   * the effect at position k; scatter(k, j) is the random velocity a
   * scattering wormhole would give marble j.
   */
  function Sweep(s: EffectState, ms: seq<Marble>, dt: real, scatter: (int, int) -> Vec3, k: int): (r: (EffectState, seq<Marble>))
    ensures |r.1| == |ms|
  {
    if ms == [] then (s, [])
    else
      var (s1, done) := Sweep(s, ms[..|ms| - 1], dt, scatter, k);
      var (s2, m) := Apply(s1, ms[|ms| - 1], dt, scatter(k, |ms| - 1));
      (s2, done + [m])
  }

  /** Every effect in list order, each seeing the marbles the earlier ones left. */
  function Cascade(ss: seq<EffectState>, ms: seq<Marble>, dt: real, scatter: (int, int) -> Vec3): (r: (seq<EffectState>, seq<Marble>))
    ensures |r.0| == |ss| && |r.1| == |ms|
  {
    if ss == [] then ([], ms)
    else
      var (done, ms1) := Cascade(ss[..|ss| - 1], ms, dt, scatter);
      var (s, ms2) := Sweep(ss[|ss| - 1], ms1, dt, scatter, |ss| - 1);
      (done + [s], ms2)
  }

  /** Cascading one more effect sweeps it over the marbles the earlier ones left. */
  lemma CascadeStep(ss: seq<EffectState>, k: int, ms: seq<Marble>, dt: real, scatter: (int, int) -> Vec3)
    requires 0 <= k < |ss|
    ensures var before := Cascade(ss[..k], ms, dt, scatter);
      var step := Sweep(ss[k], before.1, dt, scatter, k);
      Cascade(ss[..k + 1], ms, dt, scatter) == (before.0 + [step.0], step.1)
  {
    assert ss[..k + 1][..k] == ss[..k];
  }

  /** Every effect keeps its identifier through an update. */
  lemma {:induction false} CascadeKeepsIds(ss: seq<EffectState>, ms: seq<Marble>, dt: real, scatter: (int, int) -> Vec3)
    ensures forall i :: 0 <= i < |ss| ==> Cascade(ss, ms, dt, scatter).0[i].id == ss[i].id
    decreases |ss|
  {
    if ss != [] {
      var n := |ss| - 1;
      CascadeKeepsIds(ss[..n], ms, dt, scatter);
      SweepKeepsIds(ss[n], Cascade(ss[..n], ms, dt, scatter).1, dt, scatter, n);
    }
  }

  /** An inactive effect changes neither itself nor any marble, so skipping it is the same as sweeping it. */
  lemma {:induction false} SweepInactive(s: EffectState, ms: seq<Marble>, dt: real, scatter: (int, int) -> Vec3, k: int)
    requires !s.active
    ensures Sweep(s, ms, dt, scatter, k) == (s, ms)
    decreases |ms|
  {
    if ms != [] {
      SweepInactive(s, ms[..|ms| - 1], dt, scatter, k);
      assert ms[..|ms| - 1] + [ms[|ms| - 1]] == ms;
    }
  }

  /**
   * An active effect's elapsed time grows by dt once per marble, not once
   * per update: with no marbles it does not age at all.
   */
  lemma {:induction false} SweepAges(s: EffectState, ms: seq<Marble>, dt: real, scatter: (int, int) -> Vec3, k: int)
    requires s.active
    ensures Sweep(s, ms, dt, scatter, k).0.elapsed == s.elapsed + |ms| as real * dt
    ensures Sweep(s, ms, dt, scatter, k).0.active && Sweep(s, ms, dt, scatter, k).0.id == s.id
    decreases |ms|
  {
    if ms != [] {
      var n := |ms| - 1;
      SweepAges(s, ms[..n], dt, scatter, k);
      assert (n + 1) as real * dt == n as real * dt + dt;
    }
  }

  /** A sweep keeps every marble's identifier. */
  lemma {:induction false} SweepKeepsIds(s: EffectState, ms: seq<Marble>, dt: real, scatter: (int, int) -> Vec3, k: int)
    ensures forall j :: 0 <= j < |ms| ==> Sweep(s, ms, dt, scatter, k).1[j].id == ms[j].id
    ensures Sweep(s, ms, dt, scatter, k).0.id == s.id
    decreases |ms|
  {
    if ms != [] {
      SweepKeepsIds(s, ms[..|ms| - 1], dt, scatter, k);
    }
  }

  // ---------------------------------------------------------------------
  // Filters over the effect list, in list order.

  /** TArray::Remove: every occurrence of e taken out, the others in order. */
  function Without(s: seq<PhysicsEffect>, e: PhysicsEffect): seq<PhysicsEffect>
  {
    if s == [] then []
    else Without(s[..|s| - 1], e) + (if s[|s| - 1] == e then [] else [s[|s| - 1]])
  }

  function States(s: seq<PhysicsEffect>): (r: seq<EffectState>)
    reads set e | e in s
    ensures |r| == |s|
    ensures forall k :: 0 <= k < |s| ==> r[k] == s[k].State()
  {
    if s == [] then [] else States(s[..|s| - 1]) + [s[|s| - 1].State()]
  }

  /** The effects whose type is t, in list order. */
  function OfType(s: seq<PhysicsEffect>, t: EffectType): seq<PhysicsEffect>
    reads set e | e in s
  {
    if s == [] then []
    else OfType(s[..|s| - 1], t) + (if s[|s| - 1].effectType == t then [s[|s| - 1]] else [])
  }

  /** The number of active effects. */
  function CountActive(s: seq<PhysicsEffect>): nat
    reads set e | e in s
  {
    if s == [] then 0
    else CountActive(s[..|s| - 1]) + (if s[|s| - 1].isActive then 1 else 0)
  }

  /** The effects not due for removal, in list order. */
  function Unexpired(s: seq<PhysicsEffect>): seq<PhysicsEffect>
    reads set e | e in s
  {
    if s == [] then []
    else Unexpired(s[..|s| - 1]) + (if s[|s| - 1].ShouldRemove() then [] else [s[|s| - 1]])
  }

  /** The identifiers of the effects due for removal, in list order. */
  function ExpiredIds(s: seq<PhysicsEffect>): seq<nat>
    reads set e | e in s
  {
    if s == [] then []
    else ExpiredIds(s[..|s| - 1]) + (if s[|s| - 1].ShouldRemove() then [s[|s| - 1].effectId] else [])
  }

  /** The effects whose identifier is not in ids, in list order. */
  function Dropping(s: seq<PhysicsEffect>, ids: set<nat>): seq<PhysicsEffect>
    reads set e | e in s
  {
    if s == [] then []
    else Dropping(s[..|s| - 1], ids) + (if s[|s| - 1].effectId in ids then [] else [s[|s| - 1]])
  }

  // ---------------------------------------------------------------------
  // Lemmas about the filters.

  /** GetEffectsByType keeps exactly the effects of the type. */
  lemma {:induction false} OfTypeMembers(s: seq<PhysicsEffect>, t: EffectType)
    ensures forall e :: e in OfType(s, t) <==> e in s && e.effectType == t
    decreases |s|
  {
    if s != [] {
      OfTypeMembers(s[..|s| - 1], t);
      assert forall e :: e in s <==> e in s[..|s| - 1] || e == s[|s| - 1];
    }
  }

  /** The active count never exceeds the number of effects. */
  lemma {:induction false} CountActiveBound(s: seq<PhysicsEffect>)
    ensures CountActive(s) <= |s|
    decreases |s|
  {
    if s != [] {
      CountActiveBound(s[..|s| - 1]);
    }
  }

  /** Nothing kept is due for removal, and everything kept was listed. */
  lemma {:induction false} UnexpiredSound(s: seq<PhysicsEffect>)
    ensures forall e :: e in Unexpired(s) ==> e in s && !e.ShouldRemove()
    decreases |s|
  {
    if s != [] {
      UnexpiredSound(s[..|s| - 1]);
    }
  }

  /** Each effect is either kept or has its identifier collected. */
  lemma {:induction false} ExpiredCount(s: seq<PhysicsEffect>)
    ensures |Unexpired(s)| + |ExpiredIds(s)| == |s|
    decreases |s|
  {
    if s != [] {
      ExpiredCount(s[..|s| - 1]);
    }
  }

  /** The identifiers collected are those of the effects due for removal. */
  lemma {:induction false} ExpiredIdsMembers(s: seq<PhysicsEffect>)
    ensures forall id :: id in ExpiredIds(s) <==> exists k :: 0 <= k < |s| && s[k].ShouldRemove() && s[k].effectId == id
    decreases |s|
  {
    if s != [] {
      var n := |s| - 1;
      ExpiredIdsMembers(s[..n]);
      forall id | id in ExpiredIds(s)
        ensures exists k :: 0 <= k < |s| && s[k].ShouldRemove() && s[k].effectId == id
      {
        if id in ExpiredIds(s[..n]) {
          var k :| 0 <= k < n && s[..n][k].ShouldRemove() && s[..n][k].effectId == id;
          assert s[k] == s[..n][k];
        } else {
          assert s[n].ShouldRemove() && s[n].effectId == id;
        }
      }
      forall id | exists k :: 0 <= k < |s| && s[k].ShouldRemove() && s[k].effectId == id
        ensures id in ExpiredIds(s)
      {
        var k :| 0 <= k < |s| && s[k].ShouldRemove() && s[k].effectId == id;
        if k < n {
          assert s[..n][k] == s[k];
        }
      }
    }
  }

  /** The identifiers of a list, as a set. */
  function Elems(s: seq<nat>): set<nat>
  {
    set x | x in s
  }

  lemma ElemsStep(s: seq<nat>, j: int)
    requires 0 <= j < |s|
    ensures Elems(s[..j + 1]) == Elems(s[..j]) + {s[j]}
  {
    assert s[..j + 1] == s[..j] + [s[j]];
  }

  /** Removing the collected identifiers leaves exactly the unexpired effects, and one effect per identifier. */
  lemma RemovingExpired(s: seq<PhysicsEffect>)
    requires IdsDistinct(s)
    ensures Dropping(s, Elems(ExpiredIds(s))) == Unexpired(s)
    ensures |ExpiredIds(s)| == |s| - |Unexpired(s)|
  {
    ExpiredIdsMembers(s);
    ExpiredCount(s);
    DroppingExpired(s, Elems(ExpiredIds(s)));
  }

  /** No effect is listed twice. */
  ghost predicate Distinct(s: seq<PhysicsEffect>)
  {
    forall i, j :: 0 <= i < j < |s| ==> s[i] != s[j]
  }

  /** Identifiers tell the effects of the list apart. */
  ghost predicate IdsDistinct(s: seq<PhysicsEffect>)
    reads set e | e in s
  {
    forall i, j :: 0 <= i < |s| && 0 <= j < |s| && s[i].effectId == s[j].effectId ==> i == j
  }

  /** With distinct identifiers, dropping the expired identifiers keeps exactly the unexpired effects. */
  lemma {:induction false} DroppingExpired(s: seq<PhysicsEffect>, ids: set<nat>)
    requires IdsDistinct(s)
    requires forall k :: 0 <= k < |s| ==> (s[k].effectId in ids <==> s[k].ShouldRemove())
    ensures Dropping(s, ids) == Unexpired(s)
    decreases |s|
  {
    if s != [] {
      DroppingExpired(s[..|s| - 1], ids);
    }
  }

  /** Removing the one effect with identifier id is dropping that identifier too. */
  lemma {:induction false} WithoutIsDropping(s: seq<PhysicsEffect>, ids: set<nat>, e: PhysicsEffect)
    requires forall x :: x in s && x.effectId == e.effectId ==> x == e
    ensures Without(Dropping(s, ids), e) == Dropping(s, ids + {e.effectId})
    decreases |s|
  {
    if s != [] {
      var n := |s| - 1;
      WithoutIsDropping(s[..n], ids, e);
      var d := Dropping(s[..n], ids);
      if s[n].effectId in ids {
        assert Dropping(s, ids) == d;
      } else {
        assert Dropping(s, ids) == d + [s[n]];
        assert (d + [s[n]])[..|d|] == d;
      }
    }
  }

  /** Without leaves exactly the other effects. */
  lemma {:induction false} WithoutMembers(s: seq<PhysicsEffect>, e: PhysicsEffect)
    ensures forall x :: x in Without(s, e) ==> x in s && x != e
    ensures forall x :: x in s && x != e ==> x in Without(s, e)
    decreases |s|
  {
    if s != [] {
      WithoutMembers(s[..|s| - 1], e);
      assert forall x :: x in s <==> x in s[..|s| - 1] || x == s[|s| - 1];
    }
  }

  // ---------------------------------------------------------------------
  // The class.

  class PhysicsEffectManager {
    var initialized: bool
    var activeEffects: seq<PhysicsEffect>
    var effectMap: map<nat, PhysicsEffect>

    /**
     * The list holds each effect once and the map files each of them under
     * its identifier, and nothing else; it holds as long as no registered
     * effect changes its identifier (Reset gives it a new one).
     */
    ghost predicate Valid()
      reads this, set e | e in activeEffects
    {
      && Distinct(activeEffects)
      && (forall id :: id in effectMap ==> effectMap[id] in activeEffects && effectMap[id].effectId == id)
      && (forall e :: e in activeEffects ==> e.effectId in effectMap && effectMap[e.effectId] == e)
    }

    /** A new manager is uninitialised and empty. */
    constructor()
      ensures !initialized && activeEffects == [] && effectMap == map[] && Valid()
    {
      initialized := false;
      activeEffects := [];
      effectMap := map[];
    }

    /** Initialize: empties both collections the first time; a second call changes nothing. */
    method Initialize()
      modifies this
      ensures old(initialized) ==> activeEffects == old(activeEffects) && effectMap == old(effectMap)
      ensures !old(initialized) ==> activeEffects == [] && effectMap == map[]
      ensures initialized
      ensures old(Valid()) ==> Valid()
    {
      if initialized {
        return;
      }
      activeEffects := [];
      effectMap := map[];
      initialized := true;
    }

    /** Cleanup: empties both collections and marks the manager uninitialised. */
    method Cleanup()
      modifies this
      ensures activeEffects == [] && effectMap == map[] && !initialized && Valid()
    {
      activeEffects := [];
      effectMap := map[];
      initialized := false;
    }

    /**
     * AddEffect: the invalid identifier, and no change, when uninitialised or
     * given no effect; an effect whose identifier is already filed is not
     * added twice; otherwise it joins the end of the list and the map.
     */
    method AddEffect(e: PhysicsEffect?) returns (id: nat)
      modifies this
      ensures !old(initialized) || e == null ==> id == InvalidId
      ensures old(initialized) && e != null ==> id == e.effectId
      ensures (!old(initialized) || e == null || e.effectId in old(effectMap)) ==>
        activeEffects == old(activeEffects) && effectMap == old(effectMap)
      ensures old(initialized) && e != null && e.effectId !in old(effectMap) ==>
        activeEffects == old(activeEffects) + [e] && effectMap == old(effectMap)[e.effectId := e]
      ensures initialized == old(initialized)
      ensures old(Valid()) ==> Valid()
    {
      if !initialized {
        return InvalidId;
      }
      if e == null {
        return InvalidId;
      }
      id := e.effectId;
      if id in effectMap {
        return id;
      }
      activeEffects := activeEffects + [e];
      effectMap := effectMap[id := e];
    }

    /** RemoveEffect: false and no change for an unknown identifier; otherwise the effect leaves both collections. */
    method RemoveEffect(id: nat) returns (ok: bool)
      modifies this
      ensures ok <==> id in old(effectMap)
      ensures !ok ==> activeEffects == old(activeEffects) && effectMap == old(effectMap)
      ensures ok ==> activeEffects == Without(old(activeEffects), old(effectMap)[id]) && effectMap == old(effectMap) - {id}
      ensures initialized == old(initialized)
      ensures old(Valid()) ==> Valid()
    {
      if id !in effectMap {
        return false;
      }
      var e := effectMap[id];
      ghost var before := activeEffects;
      activeEffects := Without(activeEffects, e);
      effectMap := effectMap - {id};
      if old(Valid()) {
        RemovedValid(before, old(effectMap), id);
      }
      return true;
    }

    /** RemoveAllEffects: empties both collections; initialisation is kept. */
    method RemoveAllEffects()
      modifies this
      ensures activeEffects == [] && effectMap == map[] && initialized == old(initialized) && Valid()
    {
      activeEffects := [];
      effectMap := map[];
    }

    /** GetEffect: the effect filed under id, or none. */
    function GetEffect(id: nat): (e: PhysicsEffect?)
      reads this
      ensures e != null <==> id in effectMap
      ensures e != null ==> e == effectMap[id]
    {
      if id in effectMap then effectMap[id] else null
    }

    /** GetEffectsByType: the effects of type t in list order. */
    method GetEffectsByType(t: EffectType) returns (r: seq<PhysicsEffect>)
      ensures r == OfType(activeEffects, t)
      ensures forall e :: e in r <==> e in activeEffects && e.effectType == t
    {
      r := [];
      for i := 0 to |activeEffects|
        invariant r == OfType(activeEffects[..i], t)
      {
        assert activeEffects[..i + 1][..i] == activeEffects[..i];
        if activeEffects[i].effectType == t {
          r := r + [activeEffects[i]];
        }
      }
      assert activeEffects[..|activeEffects|] == activeEffects;
      OfTypeMembers(activeEffects, t);
    }

    /** GetStatistics: every listed effect is counted once, as active or as inactive. */
    method GetStatistics() returns (total: int, active: int, inactive: int)
      ensures total == |activeEffects| && active == CountActive(activeEffects)
      ensures total == active + inactive && 0 <= active && 0 <= inactive
    {
      total := |activeEffects|;
      active := 0;
      inactive := 0;
      for i := 0 to |activeEffects|
        invariant active == CountActive(activeEffects[..i]) && active + inactive == i
      {
        assert activeEffects[..i + 1][..i] == activeEffects[..i];
        if activeEffects[i].isActive {
          active := active + 1;
        } else {
          inactive := inactive + 1;
        }
      }
      assert activeEffects[..|activeEffects|] == activeEffects;
      CountActiveBound(activeEffects);
    }

    /**
     * UpdateEffects: nothing when uninitialised; otherwise every active
     * effect, in list order, is applied to every marble in order, and then
     * the effects due for removal are removed.
     */
    method UpdateEffects(marbles: array<Marble>, dt: real, scatter: (int, int) -> Vec3)
      requires Valid()
      modifies this, marbles, set e | e in activeEffects
      ensures !old(initialized) ==> marbles[..] == old(marbles[..]) && activeEffects == old(activeEffects)
      ensures old(initialized) ==>
        var r := Cascade(old(States(activeEffects)), old(marbles[..]), dt, scatter);
        && marbles[..] == r.1
        && (forall k :: 0 <= k < |old(activeEffects)| ==> old(activeEffects)[k].State() == r.0[k])
        && activeEffects == Unexpired(old(activeEffects))
        && (forall e :: e in activeEffects ==> !e.ShouldRemove())
      ensures Valid()
    {
      if !initialized {
        return;
      }
      ApplyAll(marbles, dt, scatter);
      var removed := RemoveExpiredEffects();
      UnexpiredSound(old(activeEffects));
    }

    /** The application pass of UpdateEffects. */
    method ApplyAll(marbles: array<Marble>, dt: real, scatter: (int, int) -> Vec3)
      requires Valid()
      modifies marbles, set e | e in activeEffects
      ensures var r := Cascade(old(States(activeEffects)), old(marbles[..]), dt, scatter);
        && marbles[..] == r.1
        && forall k :: 0 <= k < |activeEffects| ==> activeEffects[k].State() == r.0[k]
      ensures Valid()
    {
      SweepEffects(activeEffects, marbles, dt, scatter);
      IdsKeepValid();
    }

    /** The invariant depends on the effects only through their identifiers. */
    twostate lemma IdsKeepValid()
      requires old(Valid()) && unchanged(this)
      requires forall e :: e in activeEffects ==> e.effectId == old(e.effectId)
      ensures Valid()
    {
    }

    /** RemoveExpiredEffects: collect the identifiers of the effects due for removal, then remove each. */
    method RemoveExpiredEffects() returns (count: int)
      requires Valid()
      modifies this
      ensures activeEffects == Unexpired(old(activeEffects))
      ensures count == |old(activeEffects)| - |activeEffects|
      ensures initialized == old(initialized)
      ensures Valid()
    {
      var ids := CollectExpired();
      ValidIdsDistinct();
      RemovingExpired(activeEffects);
      RemoveIds(ids);
      count := |ids|;
    }

    /** The first loop of RemoveExpiredEffects. */
    method CollectExpired() returns (ids: seq<nat>)
      ensures ids == ExpiredIds(activeEffects)
    {
      ids := [];
      for i := 0 to |activeEffects|
        invariant ids == ExpiredIds(activeEffects[..i])
      {
        assert activeEffects[..i + 1][..i] == activeEffects[..i];
        if activeEffects[i].ShouldRemove() {
          ids := ids + [activeEffects[i].effectId];
        }
      }
      assert activeEffects[..|activeEffects|] == activeEffects;
    }

    /** The second loop of RemoveExpiredEffects: RemoveEffect for each identifier in turn. */
    method RemoveIds(ids: seq<nat>)
      requires Valid()
      modifies this
      ensures activeEffects == Dropping(old(activeEffects), Elems(ids))
      ensures effectMap == old(effectMap) - Elems(ids)
      ensures initialized == old(initialized)
      ensures Valid()
    {
      ghost var l0 := activeEffects;
      ghost var m0 := effectMap;
      DroppingNothing(l0);
      ValidIdsDistinct();
      assert Elems(ids[..0]) == {};
      assert m0 - Elems(ids[..0]) == m0;
      assert Removed(l0, m0, Elems(ids[..0]));
      for j := 0 to |ids|
        invariant Removed(l0, m0, Elems(ids[..j]))
        invariant initialized == old(initialized)
      {
        ElemsStep(ids, j);
        RemoveNext(l0, m0, Elems(ids[..j]), ids[j]);
      }
      assert ids[..|ids|] == ids;
      assert Removed(l0, m0, Elems(ids));
    }

    /** The state RemoveIds has reached once the identifiers in done are removed. */
    ghost predicate Removed(l0: seq<PhysicsEffect>, m0: map<nat, PhysicsEffect>, done: set<nat>)
      reads this, set e | e in activeEffects, set e | e in l0
    {
      && Valid()
      && activeEffects == Dropping(l0, done)
      && effectMap == m0 - done
      && IdsDistinct(l0)
      && (forall x :: x in m0 ==> m0[x] in l0 && m0[x].effectId == x)
      && (forall e :: e in l0 ==> e.effectId in m0)
    }

    /** One pass of the second loop of RemoveExpiredEffects. */
    method RemoveNext(ghost l0: seq<PhysicsEffect>, ghost m0: map<nat, PhysicsEffect>, ghost done: set<nat>, id: nat)
      requires Removed(l0, m0, done)
      modifies this
      ensures Removed(l0, m0, done + {id})
      ensures initialized == old(initialized)
    {
      DropStep(l0, m0, done, id);
      MapMinusStep(m0, done, id);
      ghost var next := Dropping(l0, done + {id});
      var ok := RemoveEffect(id);
      assert activeEffects == next;
      assert effectMap == m0 - (done + {id});
    }

    /** Valid implies the identifiers of the list are distinct. */
    lemma ValidIdsDistinct()
      requires Valid()
      ensures IdsDistinct(activeEffects)
    {
    }
  }

  // ---------------------------------------------------------------------
  // The loops of UpdateEffects.

  /** The outer loop of UpdateEffects: each effect in list order sweeps the marbles. */
  method SweepEffects(effects: seq<PhysicsEffect>, marbles: array<Marble>, dt: real, scatter: (int, int) -> Vec3)
    requires Distinct(effects)
    modifies marbles, set e | e in effects
    ensures var r := Cascade(old(States(effects)), old(marbles[..]), dt, scatter);
      && marbles[..] == r.1
      && forall k :: 0 <= k < |effects| ==> effects[k].State() == r.0[k]
    ensures forall e :: e in effects ==> e.effectId == old(e.effectId)
  {
    ghost var s0 := States(effects);
    ghost var m0 := marbles[..];
    ghost var done: seq<EffectState> := [];
    assert s0[..0] == [];
    for k := 0 to |effects|
      invariant Swept(effects, marbles[..], s0, m0, done, k, dt, scatter)
    {
      done := SweepNext(effects, marbles, dt, scatter, s0, m0, done, k);
    }
    assert s0[..|effects|] == s0;
    CascadeKeepsIds(s0, m0, dt, scatter);
  }

  /** The state of the outer loop of UpdateEffects once the first k effects have swept the marbles. */
  ghost predicate Swept(effects: seq<PhysicsEffect>, ms: seq<Marble>, s0: seq<EffectState>, m0: seq<Marble>,
                        done: seq<EffectState>, k: int, dt: real, scatter: (int, int) -> Vec3)
    reads set e | e in effects
  {
    && 0 <= k <= |effects| == |s0|
    && Distinct(effects)
    && (done, ms) == Cascade(s0[..k], m0, dt, scatter)
    && (forall i :: 0 <= i < k ==> effects[i].State() == done[i])
    && (forall i :: k <= i < |effects| ==> effects[i].State() == s0[i])
  }

  /** One pass of the outer loop of UpdateEffects. */
  method SweepNext(effects: seq<PhysicsEffect>, marbles: array<Marble>, dt: real, scatter: (int, int) -> Vec3,
                   ghost s0: seq<EffectState>, ghost m0: seq<Marble>, ghost done: seq<EffectState>, k: int)
    returns (ghost done': seq<EffectState>)
    requires 0 <= k < |effects|
    requires Swept(effects, marbles[..], s0, m0, done, k, dt, scatter)
    modifies marbles, effects[k]
    ensures Swept(effects, marbles[..], s0, m0, done', k + 1, dt, scatter)
  {
    CascadeStep(s0, k, m0, dt, scatter);
    label L:
    SweepAt(effects[k], marbles, dt, scatter, k);
    forall i | 0 <= i < |effects| && i != k
      ensures effects[i].State() == old@L(effects[i].State())
    {
      assert effects[i] != effects[k];
    }
    done' := done + [effects[k].State()];
  }

  /** One pass of the outer loop of UpdateEffects: an inactive effect is skipped. */
  method SweepAt(e: PhysicsEffect, marbles: array<Marble>, dt: real, scatter: (int, int) -> Vec3, k: int)
    modifies e, marbles
    ensures (e.State(), marbles[..]) == Sweep(old(e.State()), old(marbles[..]), dt, scatter, k)
  {
    if e.isActive {
      ApplyToMarbles(e, marbles, dt, scatter, k);
    } else {
      SweepInactive(e.State(), marbles[..], dt, scatter, k);
    }
  }

  /** The inner loop of UpdateEffects: one effect applied to each marble in turn. */
  method ApplyToMarbles(e: PhysicsEffect, marbles: array<Marble>, dt: real, scatter: (int, int) -> Vec3, k: int)
    modifies e, marbles
    ensures (e.State(), marbles[..]) == Sweep(old(e.State()), old(marbles[..]), dt, scatter, k)
  {
    ghost var s0 := e.State();
    ghost var m0 := marbles[..];
    for j := 0 to marbles.Length
      invariant forall i :: j <= i < marbles.Length ==> marbles[i] == m0[i]
      invariant (e.State(), marbles[..j]) == Sweep(s0, m0[..j], dt, scatter, k)
    {
      assert m0[..j + 1][..j] == m0[..j];
      marbles[j] := e.ApplyEffect(marbles[j], dt, scatter(k, j));
      assert marbles[..j + 1] == marbles[..j] + [marbles[j]];
    }
    assert m0[..marbles.Length] == m0;
    assert marbles[..marbles.Length] == marbles[..];
  }

  // ---------------------------------------------------------------------
  // Proof steps about the class invariant.

  /** Removing the effect filed under id keeps the list and the map in step. */
  lemma RemovedValid(l: seq<PhysicsEffect>, m: map<nat, PhysicsEffect>, id: nat)
    requires id in m
    requires Distinct(l)
    requires forall x :: x in m ==> m[x] in l && m[x].effectId == x
    requires forall e :: e in l ==> e.effectId in m && m[e.effectId] == e
    ensures var l2 := Without(l, m[id]);
      && Distinct(l2)
      && (forall x :: x in m - {id} ==> (m - {id})[x] in l2 && (m - {id})[x].effectId == x)
      && (forall e :: e in l2 ==> e.effectId in m - {id} && (m - {id})[e.effectId] == e)
  {
    WithoutMembers(l, m[id]);
    WithoutDistinct(l, m[id]);
    var l2 := Without(l, m[id]);
    forall e | e in l2
      ensures e.effectId in m - {id} && (m - {id})[e.effectId] == e
    {
      assert e in l && e != m[id];
    }
  }

  /** Without keeps a list of distinct effects distinct. */
  lemma {:induction false} WithoutDistinct(s: seq<PhysicsEffect>, e: PhysicsEffect)
    requires Distinct(s)
    ensures Distinct(Without(s, e))
    decreases |s|
  {
    if s != [] {
      var n := |s| - 1;
      WithoutDistinct(s[..n], e);
      WithoutMembers(s[..n], e);
      var r := Without(s[..n], e);
      if s[n] != e {
        assert s[n] !in s[..n];
        assert s[n] !in r;
        var r2 := r + [s[n]];
        assert Without(s, e) == r2;
        forall i, j | 0 <= i < j < |r2|
          ensures r2[i] != r2[j]
        {
          if j == |r| {
            assert r2[i] == r[i] && r[i] in r;
          } else {
            assert r2[i] == r[i] && r2[j] == r[j];
          }
        }
      } else {
        assert Without(s, e) == r;
      }
    }
  }

  /** One removal in RemoveExpiredEffects: the effect filed under the next identifier is still listed. */
  lemma DropStep(l0: seq<PhysicsEffect>, m0: map<nat, PhysicsEffect>, done: set<nat>, id: nat)
    requires IdsDistinct(l0)
    requires forall x :: x in m0 ==> m0[x] in l0 && m0[x].effectId == x
    requires forall e :: e in l0 ==> e.effectId in m0
    ensures id in m0 && id !in done ==> Without(Dropping(l0, done), m0[id]) == Dropping(l0, done + {id})
    ensures id !in m0 || id in done ==> Dropping(l0, done) == Dropping(l0, done + {id})
  {
    if id in m0 && id !in done {
      WithoutIsDropping(l0, done, m0[id]);
    } else {
      DroppingSame(l0, done, done + {id});
    }
  }

  /** Taking identifiers out of the map one at a time. */
  lemma MapMinusStep(m: map<nat, PhysicsEffect>, done: set<nat>, id: nat)
    ensures id in m - done ==> (m - done) - {id} == m - (done + {id})
    ensures id !in m - done ==> m - done == m - (done + {id})
  {
  }

  /** Two identifier sets that agree on the list drop the same effects. */
  lemma {:induction false} DroppingSame(s: seq<PhysicsEffect>, a: set<nat>, b: set<nat>)
    requires forall k :: 0 <= k < |s| ==> (s[k].effectId in a <==> s[k].effectId in b)
    ensures Dropping(s, a) == Dropping(s, b)
    decreases |s|
  {
    if s != [] {
      DroppingSame(s[..|s| - 1], a, b);
    }
  }

  /** Dropping no identifier keeps the whole list. */
  lemma {:induction false} DroppingNothing(s: seq<PhysicsEffect>)
    ensures Dropping(s, {}) == s
    decreases |s|
  {
    if s != [] {
      DroppingNothing(s[..|s| - 1]);
      assert s[..|s| - 1] + [s[|s| - 1]] == s;
    }
  }
}
