/**
 * The rules URecipeSystem applies to a newly seen combination: its rarity,
 * its base effects, the world-state multiplier, and its display name and
 * description.
 */
module RecipeRules {
  import opened Wrappers
  import opened UnrealMath
  import opened RecipeData

  // ---------------------------------------------------------------------
  // Effect keys (RecipeEffectKeys).

  const BaseDamageKey := "BaseDamage"
  const PotencyKey := "Potency"
  const SpeedKey := "Speed"
  const RadiusKey := "Radius"
  const SplitCountKey := "SplitCount"
  const ChainCountKey := "ChainCount"
  const GravityStrengthKey := "GravityStrength"
  const TeleportRangeKey := "TeleportRange"
  const FireDamageKey := "FireDamage"
  const IceDamageKey := "IceDamage"
  const LightningDamageKey := "LightningDamage"
  const PoisonDamageKey := "PoisonDamage"

  // ---------------------------------------------------------------------
  // Rarity.

  /** The rarity of a combination: one per additive, one more per Gravity or Teleport, clamped to [0, 5]. */
  function RarityOf(adds: seq<Additive>): int
  {
    ClampInt(|adds| + multiset(adds)[Gravity] + multiset(adds)[Teleport], 0, 5)
  }

  /** CalculateRarity: start from the count and add one for each Gravity or Teleport, then clamp. */
  method CalculateRarity(adds: seq<Additive>) returns (r: int)
    ensures r == RarityOf(adds)
    ensures 0 <= r <= 5
    ensures adds == [] ==> r == 0
    ensures |adds| >= 5 ==> r == 5
  {
    var rarity := |adds|;
    for i := 0 to |adds|
      invariant rarity == |adds| + multiset(adds[..i])[Gravity] + multiset(adds[..i])[Teleport]
    {
      assert adds[..i + 1] == adds[..i] + [adds[i]];
      if adds[i] == Gravity || adds[i] == Teleport {
        rarity := rarity + 1;
      }
    }
    assert adds[..|adds|] == adds;
    r := ClampInt(rarity, 0, 5);
  }

  /** The rarity ignores the order of the additives. */
  lemma RarityOrderFree(a1: seq<Additive>, a2: seq<Additive>)
    requires multiset(a1) == multiset(a2)
    ensures RarityOf(a1) == RarityOf(a2)
  {
    assert |a1| == |multiset(a1)| == |multiset(a2)| == |a2|;
  }

  // ---------------------------------------------------------------------
  // Base effects.

  /** The effects being built and the potency multiplier accumulated so far. */
  datatype Brew = Brew(effects: map<string, real>, potency: real)

  function BaseDamageOf(b: BasePotion): real
  {
    match b
    case Ricochet => 10.0
    case Piercing => 15.0
    case Explosive => 20.0
  }

  function BaseSpeedOf(b: BasePotion): real
  {
    match b
    case Ricochet => 500.0
    case Piercing => 600.0
    case Explosive => 400.0
  }

  /** The effects of the base potion alone: damage and speed, and a radius of 200 for Explosive. */
  function InitialEffects(b: BasePotion): (e: map<string, real>)
    ensures BaseDamageKey in e && SpeedKey in e
  {
    var e := map[BaseDamageKey := BaseDamageOf(b), SpeedKey := BaseSpeedOf(b)];
    if b == Explosive then e[RadiusKey := 200.0] else e
  }

  /** The key an additive adds to the effects, if it adds one. */
  function FlagKey(a: Additive): Option<string>
  {
    match a
    case Split => Some(SplitCountKey)
    case Chain => Some(ChainCountKey)
    case Gravity => Some(GravityStrengthKey)
    case Teleport => Some(TeleportRangeKey)
    case Fire => Some(FireDamageKey)
    case Ice => Some(IceDamageKey)
    case Lightning => Some(LightningDamageKey)
    case Poison => Some(PoisonDamageKey)
    case _ => None
  }

  /** The value stored under an additive's key. */
  function FlagValue(a: Additive): real
  {
    match a
    case Split => 3.0
    case Chain => 5.0
    case Gravity => 1000.0
    case Teleport => 500.0
    case _ => 15.0
  }

  /** One additive's contribution: Duration raises the potency by 0.2, Amplify and Speed scale damage or speed by 1.5, Slow halves speed, the others set their key. */
  function Infuse(w: Brew, a: Additive): (r: Brew)
    requires BaseDamageKey in w.effects && SpeedKey in w.effects
    ensures BaseDamageKey in r.effects && SpeedKey in r.effects
  {
    match a
    case NoAdditive => w
    case Duration => w.(potency := w.potency + 0.2)
    case Amplify => w.(effects := w.effects[BaseDamageKey := w.effects[BaseDamageKey] * 1.5])
    case Speed => w.(effects := w.effects[SpeedKey := w.effects[SpeedKey] * 1.5])
    case Slow => w.(effects := w.effects[SpeedKey := w.effects[SpeedKey] * 0.5])
    case _ => w.(effects := w.effects[FlagKey(a).value := FlagValue(a)])
  }

  /** The brew after the additives, in order. */
  function InfuseAll(b: BasePotion, adds: seq<Additive>): (r: Brew)
    ensures BaseDamageKey in r.effects && SpeedKey in r.effects
  {
    if adds == [] then Brew(InitialEffects(b), 1.0)
    else Infuse(InfuseAll(b, adds[..|adds| - 1]), adds[|adds| - 1])
  }

  /** CalculateBaseEffects' result: the brewed effects with the potency stored last. */
  function EffectsOf(b: BasePotion, adds: seq<Additive>): map<string, real>
  {
    var w := InfuseAll(b, adds);
    w.effects[PotencyKey := w.potency]
  }

  /** CalculateBaseEffects: the base potion's effects, then each additive in order, then the potency. */
  method CalculateBaseEffects(b: BasePotion, adds: seq<Additive>) returns (effects: map<string, real>)
    ensures effects == EffectsOf(b, adds)
  {
    effects := InitialEffects(b);
    var potency := 1.0;
    for i := 0 to |adds|
      invariant Brew(effects, potency) == InfuseAll(b, adds[..i])
    {
      InfuseAllSnoc(b, adds, i);
      match adds[i]
      case NoAdditive =>
      case Duration => potency := potency + 0.2;
      case Amplify => effects := effects[BaseDamageKey := effects[BaseDamageKey] * 1.5];
      case Speed => effects := effects[SpeedKey := effects[SpeedKey] * 1.5];
      case Slow => effects := effects[SpeedKey := effects[SpeedKey] * 0.5];
      case _ => effects := effects[FlagKey(adds[i]).value := FlagValue(adds[i])];
    }
    assert adds[..|adds|] == adds;
    effects := effects[PotencyKey := potency];
  }

  lemma InfuseAllSnoc(b: BasePotion, adds: seq<Additive>, i: int)
    requires 0 <= i < |adds|
    ensures InfuseAll(b, adds[..i + 1]) == Infuse(InfuseAll(b, adds[..i]), adds[i])
  {
    assert adds[..i + 1][..i] == adds[..i];
  }

  function Pow(x: real, n: nat): real
  {
    if n == 0 then 1.0 else x * Pow(x, n - 1)
  }

  /** Some additive of adds sets key k. */
  ghost predicate FlaggedBy(k: string, adds: seq<Additive>)
  {
    exists a :: a in adds && FlagKey(a) == Some(k)
  }

  /** The brew in closed form, from the counts of the additives. */
  ghost predicate BrewIs(w: Brew, b: BasePotion, adds: seq<Additive>)
  {
    BrewCounts(w, b, multiset(adds)) && BrewFlags(w, b, adds)
  }

  /** The potency, damage, speed and radius of the brew, from the counts of the additives. */
  ghost predicate BrewCounts(w: Brew, b: BasePotion, m: multiset<Additive>)
  {
    && w.potency == 1.0 + 0.2 * (m[Duration] as real)
    && BaseDamageKey in w.effects && SpeedKey in w.effects
    && w.effects[BaseDamageKey] == BaseDamageOf(b) * Pow(1.5, m[Amplify])
    && w.effects[SpeedKey] == BaseSpeedOf(b) * Pow(1.5, m[Speed]) * Pow(0.5, m[Slow])
    && (RadiusKey in w.effects <==> b == Explosive)
    && (b == Explosive ==> w.effects[RadiusKey] == 200.0)
  }

  /** The keys of the brew: each flag key exactly when its additive is there, with its value, and nothing else. */
  ghost predicate BrewFlags(w: Brew, b: BasePotion, adds: seq<Additive>)
  {
    && (forall a :: FlagKey(a).Some? ==> (FlagKey(a).value in w.effects <==> a in adds))
    && (forall a :: FlagKey(a).Some? && a in adds ==> w.effects[FlagKey(a).value] == FlagValue(a))
    && (forall k :: k in w.effects ==> k == BaseDamageKey || k == SpeedKey || k == RadiusKey || FlaggedBy(k, adds))
  }

  /** Flag keys name one additive each and are none of the base keys. */
  lemma FlagKeys(a: Additive, c: Additive)
    ensures FlagKey(a).Some? ==> FlagKey(a).value !in {BaseDamageKey, SpeedKey, RadiusKey, PotencyKey}
    ensures FlagKey(a).Some? && FlagKey(a) == FlagKey(c) ==> a == c
  {
  }

  lemma BrewStart(b: BasePotion)
    ensures BrewIs(Brew(InitialEffects(b), 1.0), b, [])
  {
    var e := InitialEffects(b);
    forall a | FlagKey(a).Some? ensures FlagKey(a).value !in e {
      FlagKeys(a, a);
    }
  }

  /** One more additive keeps the closed form. */
  lemma BrewStep(w: Brew, b: BasePotion, adds: seq<Additive>, a: Additive)
    requires BrewIs(w, b, adds)
    ensures BrewIs(Infuse(w, a), b, adds + [a])
  {
    assert multiset(adds + [a]) == multiset(adds) + multiset{a};
    CountsStep(w, b, multiset(adds), a);
    FlagsStep(w, b, adds, a);
  }

  lemma CountsStep(w: Brew, b: BasePotion, m: multiset<Additive>, a: Additive)
    requires BrewCounts(w, b, m)
    ensures BrewCounts(Infuse(w, a), b, m + multiset{a})
  {
    if FlagKey(a).Some? {
      FlagCounts(w, b, m, a);
    } else if a == Amplify {
      AmplifyCounts(w, b, m);
    } else if a == Speed || a == Slow {
      SpeedCounts(w, b, m, a);
    } else {
      var m' := m + multiset{a};
      assert m'[Amplify] == m[Amplify] && m'[Speed] == m[Speed] && m'[Slow] == m[Slow];
      assert a == Duration || a == NoAdditive;
    }
  }

  lemma AmplifyCounts(w: Brew, b: BasePotion, m: multiset<Additive>)
    requires BrewCounts(w, b, m)
    ensures BrewCounts(Infuse(w, Amplify), b, m + multiset{Amplify})
  {
    var m' := m + multiset{Amplify};
    assert m'[Amplify] == m[Amplify] + 1;
    assert m'[Duration] == m[Duration] && m'[Speed] == m[Speed] && m'[Slow] == m[Slow];
    assert Pow(1.5, m'[Amplify]) == 1.5 * Pow(1.5, m[Amplify]);
  }

  lemma SpeedCounts(w: Brew, b: BasePotion, m: multiset<Additive>, a: Additive)
    requires BrewCounts(w, b, m) && (a == Speed || a == Slow)
    ensures BrewCounts(Infuse(w, a), b, m + multiset{a})
  {
    if a == Speed {
      FasterCounts(w, b, m);
    } else {
      SlowerCounts(w, b, m);
    }
  }

  lemma FasterCounts(w: Brew, b: BasePotion, m: multiset<Additive>)
    requires BrewCounts(w, b, m)
    ensures BrewCounts(Infuse(w, Speed), b, m + multiset{Speed})
  {
    var m' := m + multiset{Speed};
    assert m'[Duration] == m[Duration] && m'[Amplify] == m[Amplify];
    assert m'[Speed] == m[Speed] + 1 && m'[Slow] == m[Slow];
    var s, p, q := BaseSpeedOf(b), Pow(1.5, m[Speed]), Pow(0.5, m[Slow]);
    assert Pow(1.5, m'[Speed]) == 1.5 * p;
    assert Infuse(w, Speed).effects[SpeedKey] == s * (1.5 * p) * q by {
      Rescale(s, p, q, 1.5);
    }
  }

  lemma SlowerCounts(w: Brew, b: BasePotion, m: multiset<Additive>)
    requires BrewCounts(w, b, m)
    ensures BrewCounts(Infuse(w, Slow), b, m + multiset{Slow})
  {
    var m' := m + multiset{Slow};
    assert m'[Duration] == m[Duration] && m'[Amplify] == m[Amplify];
    assert m'[Slow] == m[Slow] + 1 && m'[Speed] == m[Speed];
    var s, p, q := BaseSpeedOf(b), Pow(1.5, m[Speed]), Pow(0.5, m[Slow]);
    assert Pow(0.5, m'[Slow]) == 0.5 * q;
    assert Infuse(w, Slow).effects[SpeedKey] == s * p * (0.5 * q) by {
      Rescale(s, q, p, 0.5);
    }
  }

  /** An additive that only sets its own key leaves the counted values alone. */
  lemma FlagCounts(w: Brew, b: BasePotion, m: multiset<Additive>, a: Additive)
    requires BrewCounts(w, b, m) && FlagKey(a).Some?
    ensures BrewCounts(Infuse(w, a), b, m + multiset{a})
  {
    FlagKeys(a, a);
    var m' := m + multiset{a};
    assert m'[Duration] == m[Duration] && m'[Amplify] == m[Amplify];
    assert m'[Speed] == m[Speed] && m'[Slow] == m[Slow];
    assert Infuse(w, a) == w.(effects := w.effects[FlagKey(a).value := FlagValue(a)]);
  }

  /** s * p * q scaled by k is s times p scaled by k times q, in either order of the factors. */
  lemma Rescale(s: real, p: real, q: real, k: real)
    ensures s * p * q * k == s * (k * p) * q
    ensures s * q * p * k == s * q * (k * p)
  {
  }

  lemma FlagsStep(w: Brew, b: BasePotion, adds: seq<Additive>, a: Additive)
    requires BaseDamageKey in w.effects && SpeedKey in w.effects
    requires BrewFlags(w, b, adds)
    ensures BrewFlags(Infuse(w, a), b, adds + [a])
  {
    var s := adds + [a];
    var r := Infuse(w, a);
    forall c | FlagKey(c).Some? ensures FlagKey(c).value in r.effects <==> c in s {
      FlagKeys(c, a);
      FlagKeys(a, c);
    }
    forall c | FlagKey(c).Some? && c in s ensures r.effects[FlagKey(c).value] == FlagValue(c) {
      FlagKeys(c, a);
      FlagKeys(a, c);
    }
    forall k | k in r.effects ensures k == BaseDamageKey || k == SpeedKey || k == RadiusKey || FlaggedBy(k, s) {
      if k !in w.effects {
        assert a in s && FlagKey(a) == Some(k);
      } else if FlaggedBy(k, adds) {
        var c :| c in adds && FlagKey(c) == Some(k);
        assert c in s;
      }
    }
  }

  lemma {:induction false} InfuseAllIs(b: BasePotion, adds: seq<Additive>)
    ensures BrewIs(InfuseAll(b, adds), b, adds)
    decreases |adds|
  {
    if adds == [] {
      BrewStart(b);
    } else {
      var init := adds[..|adds| - 1];
      InfuseAllIs(b, init);
      BrewStep(InfuseAll(b, init), b, init, adds[|adds| - 1]);
      assert init + [adds[|adds| - 1]] == adds;
    }
  }

  /**
   * The base effects in closed form: damage scaled by 1.5 per Amplify, speed
   * by 1.5 per Speed and 0.5 per Slow, a potency of 1 plus 0.2 per Duration,
   * a radius of 200 exactly for Explosive, each flag key present exactly when
   * its additive is, with its fixed value, and no other key.
   */
  lemma BaseEffectsClosedForm(b: BasePotion, adds: seq<Additive>)
    ensures var e := EffectsOf(b, adds); var m := multiset(adds);
      && BaseDamageKey in e && SpeedKey in e && PotencyKey in e
      && e[PotencyKey] == 1.0 + 0.2 * (m[Duration] as real)
      && e[BaseDamageKey] == BaseDamageOf(b) * Pow(1.5, m[Amplify])
      && e[SpeedKey] == BaseSpeedOf(b) * Pow(1.5, m[Speed]) * Pow(0.5, m[Slow])
      && (RadiusKey in e <==> b == Explosive)
      && (b == Explosive ==> e[RadiusKey] == 200.0)
      && (forall a :: FlagKey(a).Some? ==> (FlagKey(a).value in e <==> a in adds))
      && (forall a :: FlagKey(a).Some? && a in adds ==> e[FlagKey(a).value] == FlagValue(a))
      && (forall k :: k in e ==> k == BaseDamageKey || k == SpeedKey || k == RadiusKey || k == PotencyKey || FlaggedBy(k, adds))
  {
    InfuseAllIs(b, adds);
    forall a | FlagKey(a).Some? ensures FlagKey(a).value != PotencyKey {
      FlagKeys(a, a);
    }
  }

  /** The base effects ignore the order of the additives, like the recipe identifier. */
  lemma BaseEffectsOrderFree(b: BasePotion, a1: seq<Additive>, a2: seq<Additive>)
    requires multiset(a1) == multiset(a2)
    ensures EffectsOf(b, a1) == EffectsOf(b, a2)
  {
    var e1 := EffectsOf(b, a1);
    var e2 := EffectsOf(b, a2);
    forall k | k in e1 ensures k in e2 && e1[k] == e2[k] {
      SameEntry(b, a1, a2, k);
    }
    forall k | k in e2 ensures k in e1 {
      SameEntry(b, a2, a1, k);
    }
  }

  /** A key of the effects of a1 is one of the effects of any reordering a2, with the same value. */
  lemma SameEntry(b: BasePotion, a1: seq<Additive>, a2: seq<Additive>, k: string)
    requires multiset(a1) == multiset(a2)
    requires k in EffectsOf(b, a1)
    ensures k in EffectsOf(b, a2) && EffectsOf(b, a1)[k] == EffectsOf(b, a2)[k]
  {
    BaseEffectsClosedForm(b, a1);
    BaseEffectsClosedForm(b, a2);
    if k != BaseDamageKey && k != SpeedKey && k != RadiusKey && k != PotencyKey {
      var a :| a in a1 && FlagKey(a) == Some(k);
      assert a in multiset(a2);
    }
  }

  lemma SameFlagged(k: string, a1: seq<Additive>, a2: seq<Additive>)
    requires multiset(a1) == multiset(a2)
    ensures FlaggedBy(k, a1) ==> FlaggedBy(k, a2)
  {
    if FlaggedBy(k, a1) {
      var a :| a in a1 && FlagKey(a) == Some(k);
      assert a in multiset(a2);
    }
  }

  // ---------------------------------------------------------------------
  // World-state multiplier.

  /**
   * CalculateWorldStateMultiplier: 1, plus 0.2 when the recipe deals fire
   * damage and "Temperature" is above 30, plus 0.2 when it deals ice damage
   * and "Temperature" is below 10, plus a tenth of "CrystalDensity" when that
   * is given.
   */
  function CalculateWorldStateMultiplier(def: RecipeDefinition, ws: map<string, real>): (m: real)
    ensures ("Temperature" !in ws && "CrystalDensity" !in ws) ==> m == 1.0
    ensures var d := if "CrystalDensity" in ws then ws["CrystalDensity"] * 0.1 else 0.0;
      m - d == 1.0 || m - d == 1.2 || m - d == 1.4
    ensures ("CrystalDensity" !in ws || ws["CrystalDensity"] >= 0.0) ==> m >= 1.0
    ensures (FireDamageKey !in def.baseEffects && IceDamageKey !in def.baseEffects) ==>
      m == 1.0 + (if "CrystalDensity" in ws then ws["CrystalDensity"] * 0.1 else 0.0)
  {
    var temp :=
      if "Temperature" in ws then
        var t := ws["Temperature"];
        (if FireDamageKey in def.baseEffects && t > 30.0 then 0.2 else 0.0)
        + (if IceDamageKey in def.baseEffects && t < 10.0 then 0.2 else 0.0)
      else 0.0;
    var density := if "CrystalDensity" in ws then ws["CrystalDensity"] * 0.1 else 0.0;
    1.0 + temp + density
  }

  /** Both temperature bonuses cannot apply together: no temperature is above 30 and below 10. */
  lemma OneTemperatureBonus(def: RecipeDefinition, ws: map<string, real>)
    ensures var d := if "CrystalDensity" in ws then ws["CrystalDensity"] * 0.1 else 0.0;
      CalculateWorldStateMultiplier(def, ws) - d <= 1.2
  {
  }

  /** Each effect scaled by m, as the loop over Output.Effects does. */
  method ScaleEffects(e: map<string, real>, m: real) returns (r: map<string, real>)
    ensures r == Scaled(e, m)
  {
    r := e;
    var todo := e.Keys;
    while todo != {}
      invariant todo <= e.Keys && r.Keys == e.Keys
      invariant forall k :: k in e && k !in todo ==> r[k] == e[k] * m
      invariant forall k :: k in todo ==> r[k] == e[k]
      decreases todo
    {
      var k :| k in todo;
      r := r[k := r[k] * m];
      todo := todo - {k};
    }
    assert r == Scaled(e, m) by {
      ScaledAt(e, m);
    }
  }

  /** Each effect multiplied by m: the same keys, every value scaled. */
  function Scaled(e: map<string, real>, m: real): (r: map<string, real>)
  {
    map k | k in e :: e[k] * m
  }

  lemma ScaledAt(e: map<string, real>, m: real)
    ensures Scaled(e, m).Keys == e.Keys
    ensures forall k :: k in e ==> Scaled(e, m)[k] == e[k] * m
  {
  }

  // ---------------------------------------------------------------------
  // Display names and descriptions.

  function BaseName(b: BasePotion): string
  {
    match b
    case Ricochet => "弹射"
    case Piercing => "穿透"
    case Explosive => "爆炸"
  }

  /** The two characters an additive adds to a display name; None adds nothing. */
  function NamePart(a: Additive): (s: string)
    ensures |s| == if a == NoAdditive then 0 else 2
  {
    match a
    case NoAdditive => ""
    case Duration => "持续"
    case Amplify => "强化"
    case Split => "分裂"
    case Chain => "连锁"
    case Gravity => "引力"
    case Teleport => "传送"
    case Speed => "加速"
    case Slow => "减速"
    case Fire => "火焰"
    case Ice => "冰霜"
    case Lightning => "雷电"
    case Poison => "毒素"
  }

  function NameParts(adds: seq<Additive>): string
  {
    if adds == [] then "" else NameParts(adds[..|adds| - 1]) + NamePart(adds[|adds| - 1])
  }

  /** The display name: the base's name, one part per additive in the given order, then "药剂". */
  function DisplayNameOf(b: BasePotion, adds: seq<Additive>): string
  {
    BaseName(b) + NameParts(adds) + "药剂"
  }

  /** GenerateDisplayName: the base's name, each additive's part in order, then "药剂". */
  method GenerateDisplayName(b: BasePotion, adds: seq<Additive>) returns (name: string)
    ensures name == DisplayNameOf(b, adds)
  {
    name := BaseName(b);
    for i := 0 to |adds|
      invariant name == BaseName(b) + NameParts(adds[..i])
    {
      assert adds[..i + 1][..i] == adds[..i];
      name := name + NamePart(adds[i]);
    }
    assert adds[..|adds|] == adds;
    name := name + "药剂";
  }

  /**
   * A display name starts with the base's name, ends with "药剂", and has two
   * characters for each additive other than None besides.
   */
  lemma {:induction false} DisplayNameShape(b: BasePotion, adds: seq<Additive>)
    ensures var n := DisplayNameOf(b, adds);
      |n| == 4 + 2 * (|adds| - multiset(adds)[NoAdditive])
      && n[..2] == BaseName(b) && n[|n| - 2..] == "药剂"
    decreases |adds|
  {
    PartsLength(adds);
    var n := DisplayNameOf(b, adds);
    assert n[..2] == BaseName(b);
    assert n[|n| - 2..] == "药剂";
  }

  lemma {:induction false} PartsLength(adds: seq<Additive>)
    ensures |NameParts(adds)| == 2 * (|adds| - multiset(adds)[NoAdditive])
    decreases |adds|
  {
    if adds != [] {
      var init := adds[..|adds| - 1];
      PartsLength(init);
      assert adds == init + [adds[|adds| - 1]];
      assert multiset(adds) == multiset(init) + multiset{adds[|adds| - 1]};
    }
  }

  function BaseDescription(b: BasePotion): string
  {
    match b
    case Ricochet => "弹射药剂，每次碰撞后伤害递增"
    case Piercing => "穿透药剂，可以穿透敌人"
    case Explosive => "爆炸药剂，碰撞后产生范围伤害"
  }

  /** The words an additive adds to a description; None adds nothing. */
  function DescriptionPart(a: Additive): string
  {
    match a
    case NoAdditive => ""
    case Duration => "持续效果"
    case Amplify => "强化效果"
    case Split => "分裂效果"
    case Chain => "连锁效果"
    case Gravity => "引力场"
    case Teleport => "传送效果"
    case Speed => "加速效果"
    case Slow => "减速效果"
    case Fire => "火焰伤害"
    case Ice => "冰霜伤害"
    case Lightning => "雷电伤害"
    case Poison => "毒素伤害"
  }

  /** The parts of the first i additives of adds, each followed by "、" unless it is the last of adds. */
  function DescriptionParts(adds: seq<Additive>, i: nat): string
    requires i <= |adds|
  {
    if i == 0 then ""
    else DescriptionParts(adds, i - 1) + DescriptionPart(adds[i - 1]) + (if i - 1 < |adds| - 1 then "、" else "")
  }

  /** The description: the base's, then "，附加" and the listed additives when there are any, then "。". */
  function DescriptionOf(b: BasePotion, adds: seq<Additive>): string
  {
    BaseDescription(b) + (if adds == [] then "" else "，附加" + DescriptionParts(adds, |adds|)) + "。"
  }

  /** GenerateDescription: the base's description, the additives listed after "，附加" with "、" between them, then "。". */
  method GenerateDescription(b: BasePotion, adds: seq<Additive>) returns (d: string)
    ensures d == DescriptionOf(b, adds)
  {
    d := BaseDescription(b);
    if |adds| > 0 {
      d := d + "，附加";
      var parts := ListAdditives(adds);
      d := d + parts;
    }
    d := d + "。";
  }

  /** The loop of GenerateDescription: each additive's words, with "、" after every one but the last. */
  method ListAdditives(adds: seq<Additive>) returns (t: string)
    ensures t == DescriptionParts(adds, |adds|)
  {
    t := "";
    for i := 0 to |adds|
      invariant t == DescriptionParts(adds, i)
    {
      PartsStep(adds, i);
      t := t + DescriptionPart(adds[i]);
      if i < |adds| - 1 {
        t := t + "、";
      }
    }
  }

  lemma PartsStep(adds: seq<Additive>, i: nat)
    requires i < |adds|
    ensures DescriptionParts(adds, i + 1) == DescriptionParts(adds, i) + DescriptionPart(adds[i]) + (if i < |adds| - 1 then "、" else "")
  {
  }

  /** A description lists its additives with one "、" between each two of them, and holds no other "、". */
  lemma DescriptionSeparators(b: BasePotion, adds: seq<Additive>)
    ensures multiset(DescriptionOf(b, adds))['、'] == if adds == [] then 0 else |adds| - 1
  {
    var tail := if adds == [] then "" else "，附加" + DescriptionParts(adds, |adds|);
    assert multiset(tail)['、'] == if adds == [] then 0 else |adds| - 1 by {
      if adds != [] {
        ListSeparators(adds);
      }
    }
    assert multiset(BaseDescription(b) + tail)['、'] == multiset(tail)['、'] by {
      BaseDescriptionClean(b);
      Uncounted(BaseDescription(b), tail);
    }
    assert multiset(DescriptionOf(b, adds))['、'] == multiset(BaseDescription(b) + tail)['、'] by {
      LiteralsClean();
      Uncounted("。", BaseDescription(b) + tail);
      assert DescriptionOf(b, adds) == (BaseDescription(b) + tail) + "。";
    }
  }

  lemma ListSeparators(adds: seq<Additive>)
    requires adds != []
    ensures multiset("，附加" + DescriptionParts(adds, |adds|))['、'] == |adds| - 1
  {
    PartsSeparators(adds, |adds|);
    LiteralsClean();
    Uncounted("，附加", DescriptionParts(adds, |adds|));
  }

  /** Gluing on a text without "、" does not change the count of "、". */
  lemma Uncounted(clean: string, s: string)
    requires '、' !in clean
    ensures multiset(clean + s)['、'] == multiset(s)['、']
    ensures multiset(s + clean)['、'] == multiset(s)['、']
  {
    assert multiset(clean)['、'] == 0;
  }

  lemma LiteralsClean()
    ensures '、' !in "。" && '、' !in "，附加"
  {
  }

  lemma BaseDescriptionClean(b: BasePotion)
    ensures '、' !in BaseDescription(b)
  {
  }

  lemma PartClean(a: Additive)
    ensures '、' !in DescriptionPart(a)
  {
  }

  lemma {:induction false} PartsSeparators(adds: seq<Additive>, i: nat)
    requires 1 <= i <= |adds|
    ensures multiset(DescriptionParts(adds, i))['、'] == if i < |adds| then i else i - 1
    decreases i
  {
    PartClean(adds[i - 1]);
    assert multiset(DescriptionPart(adds[i - 1]))['、'] == 0;
    if i > 1 {
      PartsSeparators(adds, i - 1);
    }
  }
}
