/**
 * URecipeBlueprintLibrary: the script-facing helpers around the recipe
 * system. The world-context lookup is the pair (reachable, registered) that
 * RecipeSystem.Get takes; every wrapper returns the library's default when
 * Get yields no system.
 */
module RecipeBlueprint {
  import opened Vectors
  import opened RecipeData
  import opened RecipeRules
  import Recipes

  // ---------------------------------------------------------------------
  // Wrappers over the recipe system.

  /** EvaluateRecipe: a default output without a system, the system's evaluation otherwise. */
  method EvaluateRecipe(reachable: bool, registered: Recipes.RecipeSystem?, input: RecipeInput) returns (out: RecipeOutput)
    modifies registered
    ensures !reachable ==> out == DefaultOutput
    ensures reachable && registered != null ==>
      (registered.Snapshot(), out) == Recipes.Evaluate(old(registered.Snapshot()), input)
    ensures reachable && registered == null ==>
      out == Recipes.Evaluate(Recipes.Library(Recipes.WithDefaults(map[]), {}, map[]), input).1
  {
    var sys := Recipes.RecipeSystem.Get(reachable, registered);
    if sys == null {
      return DefaultOutput;
    }
    out := sys.EvaluateRecipe(input);
  }

  /** GetDiscoveredRecipes: the discovered definitions; none without a system or from a new one. */
  method GetDiscoveredRecipes(reachable: bool, registered: Recipes.RecipeSystem?) returns (defs: seq<RecipeDefinition>)
    ensures !(reachable && registered != null) ==> defs == []
    ensures reachable && registered != null ==>
      forall d :: d in defs <==> exists id :: id in registered.discovered && id in registered.definitions && registered.definitions[id] == d
  {
    var sys := Recipes.RecipeSystem.Get(reachable, registered);
    if sys == null {
      return [];
    }
    defs := sys.GetDiscoveredRecipeDefinitions();
    if registered == null {
      assert sys.discovered * sys.definitions.Keys == {};
    }
  }

  /** IsRecipeDiscovered: only a registered system can have discovered anything. */
  method IsRecipeDiscovered(reachable: bool, registered: Recipes.RecipeSystem?, id: string) returns (found: bool)
    ensures found <==> reachable && registered != null && id in registered.discovered
  {
    var sys := Recipes.RecipeSystem.Get(reachable, registered);
    if sys == null {
      return false;
    }
    found := sys.IsRecipeDiscovered(id);
  }

  /** GetRecipeByID: a new system knows exactly the default recipes; the caller's record is kept on a miss. */
  method GetRecipeByID(reachable: bool, registered: Recipes.RecipeSystem?, id: string, outRecipe: RecipeDefinition)
    returns (found: bool, recipe: RecipeDefinition)
    ensures !reachable ==> !found && recipe == outRecipe
    ensures reachable && registered != null ==>
      (found <==> id in registered.definitions) && recipe == (if found then registered.definitions[id] else outRecipe)
    ensures reachable && registered == null ==>
      var m := Recipes.WithDefaults(map[]);
      (found <==> id in m) && recipe == (if found then m[id] else outRecipe)
  {
    var sys := Recipes.RecipeSystem.Get(reachable, registered);
    if sys == null {
      return false, outRecipe;
    }
    found, recipe := sys.GetRecipeByID(id, outRecipe);
  }

  /** GetRecipeUsageCount: zero unless a registered system has counted the recipe. */
  method GetRecipeUsageCount(reachable: bool, registered: Recipes.RecipeSystem?, id: string) returns (n: int)
    ensures n == if reachable && registered != null then Recipes.UsageOf(registered.usageCounts, id) else 0
  {
    var sys := Recipes.RecipeSystem.Get(reachable, registered);
    if sys == null {
      return 0;
    }
    n := sys.GetRecipeUsageCount(id);
  }

  /** ResetRecipeLibrary: resets a registered system; nothing else is observable. */
  method ResetRecipeLibrary(reachable: bool, registered: Recipes.RecipeSystem?)
    modifies registered
    ensures reachable && registered != null ==> registered.Snapshot() == Recipes.Reset(old(registered.Snapshot()))
    ensures !reachable && registered != null ==> registered.Snapshot() == old(registered.Snapshot())
  {
    var sys := Recipes.RecipeSystem.Get(reachable, registered);
    if sys != null {
      sys.ResetRecipeLibrary();
    }
  }

  // ---------------------------------------------------------------------
  // Inputs and outputs.

  /** MakeRecipeInput: the given base and additives, in the given order, with no world state. */
  function MakeRecipeInput(b: BasePotion, adds: seq<Additive>): (r: RecipeInput)
    ensures r.basePotion == b && r.additives == adds && r.worldState == map[]
  {
    RecipeInput(b, adds, map[])
  }

  /** AddWorldStateParameter: key now maps to value; the rest of the input is unchanged. */
  function AddWorldStateParameter(input: RecipeInput, key: string, value: real): (r: RecipeInput)
    ensures r.basePotion == input.basePotion && r.additives == input.additives
    ensures key in r.worldState && r.worldState[key] == value
    ensures forall k :: k != key ==> (k in r.worldState <==> k in input.worldState)
    ensures forall k :: k != key && k in input.worldState ==> r.worldState[k] == input.worldState[k]
  {
    input.(worldState := input.worldState[key := value])
  }

  /** A later value for the same key replaces the earlier one. */
  lemma AddWorldStateOverwrites(input: RecipeInput, key: string, v1: real, v2: real)
    ensures AddWorldStateParameter(AddWorldStateParameter(input, key, v1), key, v2) == AddWorldStateParameter(input, key, v2)
  {
    assert input.worldState[key := v1][key := v2] == input.worldState[key := v2];
  }

  /** Parameters under different keys can be added in either order. */
  lemma AddWorldStateCommutes(input: RecipeInput, k1: string, v1: real, k2: string, v2: real)
    requires k1 != k2
    ensures AddWorldStateParameter(AddWorldStateParameter(input, k1, v1), k2, v2)
         == AddWorldStateParameter(AddWorldStateParameter(input, k2, v2), k1, v1)
  {
    assert input.worldState[k1 := v1][k2 := v2] == input.worldState[k2 := v2][k1 := v1];
  }

  /** A fresh input has no world state, so it scales nothing. */
  lemma FreshInputUnscaled(def: RecipeDefinition, b: BasePotion, adds: seq<Additive>)
    ensures CalculateWorldStateMultiplier(def, MakeRecipeInput(b, adds).worldState) == 1.0
  {
  }

  /** GetEffectValue: the stored value of the effect, or the caller's default when it has none. */
  function GetEffectValue(out: RecipeOutput, key: string, default: real): (v: real)
    ensures key in out.effects ==> v == out.effects[key]
    ensures key !in out.effects ==> v == default
  {
    if key in out.effects then out.effects[key] else default
  }

  /** HasEffect. */
  function HasEffect(out: RecipeOutput, key: string): (b: bool)
    // the output has the effect exactly when the default passed to GetEffectValue does not matter
    ensures b <==> forall d: real :: GetEffectValue(out, key, d) == GetEffectValue(out, key, 0.0)
  {
    if key in out.effects then true
    else
      assert GetEffectValue(out, key, 1.0) != GetEffectValue(out, key, 0.0);
      false
  }

  /** An output has an effect exactly when the default passed to GetEffectValue does not matter. */
  lemma HasEffectIffDefaultIgnored(out: RecipeOutput, key: string)
    ensures HasEffect(out, key) <==> forall d: real :: GetEffectValue(out, key, d) == GetEffectValue(out, key, 0.0)
  {
    if !HasEffect(out, key) {
      assert GetEffectValue(out, key, 1.0) != GetEffectValue(out, key, 0.0);
    }
  }

  // ---------------------------------------------------------------------
  // Display helpers.

  /** GetBasePotionDisplayName: the base's name followed by "药剂". */
  function GetBasePotionDisplayName(b: BasePotion): (s: string)
    ensures |s| == 4 && s[2..] == "药剂"
  {
    match b
    case Ricochet => "弹射药剂"
    case Piercing => "穿透药剂"
    case Explosive => "爆炸药剂"
  }

  /**
   * The base's display name is the display name the recipe rules give the
   * base with no additives, or with None additives only.
   */
  lemma {:induction false} BaseDisplayNameIsPlainRecipe(b: BasePotion, adds: seq<Additive>)
    requires forall i :: 0 <= i < |adds| ==> adds[i] == NoAdditive
    ensures GetBasePotionDisplayName(b) == DisplayNameOf(b, adds)
    decreases |adds|
  {
    if adds == [] {
      assert DisplayNameOf(b, adds) == BaseName(b) + "" + "药剂";
    } else {
      var init := adds[..|adds| - 1];
      BaseDisplayNameIsPlainRecipe(b, init);
      assert NameParts(adds) == NameParts(init) + NamePart(NoAdditive);
      assert DisplayNameOf(b, adds) == DisplayNameOf(b, init);
    }
  }

  /** GetAdditiveDisplayName: "无" for None, otherwise the additive's two-character name. */
  function GetAdditiveDisplayName(a: Additive): (s: string)
    ensures |s| == if a == NoAdditive then 1 else 2
  {
    match a
    case NoAdditive => "无"
    case Duration => "持续"
    case Amplify => "强化"
    case Split => "分裂"
    case Chain => "连锁"
    case Gravity => "引力"
    case Teleport => "传送"
    case Speed => "加速"
    case Slow => "减速"
    case Fire => "火焰"
    case Ice => "冰霜"
    case Lightning => "雷电"
    case Poison => "毒素"
  }

  /**
   * A single additive other than None names its recipe as the base's name,
   * the additive's display name and "药剂".
   */
  lemma AdditiveNameInRecipeName(b: BasePotion, a: Additive)
    requires a != NoAdditive
    ensures DisplayNameOf(b, [a]) == BaseName(b) + GetAdditiveDisplayName(a) + "药剂"
  {
    assert [a][..0] == [];
    assert NameParts([a]) == NamePart(a);
  }

  /** GetRarityName: the six tier names, "未知" outside [0, 5]. */
  function GetRarityName(rarity: int): (s: string)
    ensures |s| == 2
    ensures (0 <= rarity <= 5) <==> s != "未知"
  {
    match rarity
    case 0 => "普通"
    case 1 => "常见"
    case 2 => "稀有"
    case 3 => "精良"
    case 4 => "史诗"
    case 5 => "传说"
    case _ => "未知"
  }

  /** The six tiers have six different names. */
  lemma RarityNamesDistinct(i: int, j: int)
    requires 0 <= i < j <= 5
    ensures GetRarityName(i) != GetRarityName(j)
  {
  }

  /** Every combination's rarity has a name. */
  lemma EveryRarityNamed(adds: seq<Additive>)
    ensures GetRarityName(RarityOf(adds)) != "未知"
  {
  }

  /** GetRarityColor: gray, white, green, blue, purple, orange; white outside [0, 5]. */
  function GetRarityColor(rarity: int): (c: LinearColor)
    ensures c.a == 1.0
    ensures !(0 <= rarity <= 5) ==> c == LinearColor(1.0, 1.0, 1.0, 1.0)
  {
    match rarity
    case 0 => LinearColor(0.5, 0.5, 0.5, 1.0)
    case 1 => LinearColor(1.0, 1.0, 1.0, 1.0)
    case 2 => LinearColor(0.0, 1.0, 0.0, 1.0)
    case 3 => LinearColor(0.0, 0.0, 1.0, 1.0)
    case 4 => LinearColor(0.5, 0.0, 0.5, 1.0)
    case 5 => LinearColor(1.0, 0.5, 0.0, 1.0)
    case _ => LinearColor(1.0, 1.0, 1.0, 1.0)
  }

  /** The six tiers have six different colours; only an unknown rarity shares one (white, with tier 1). */
  lemma RarityColorsDistinct(i: int, j: int)
    requires 0 <= i < j <= 5
    ensures GetRarityColor(i) != GetRarityColor(j)
  {
  }

  /** An unknown rarity looks like tier 1 but is named differently. */
  lemma UnknownRarityLooksCommon(rarity: int)
    requires !(0 <= rarity <= 5)
    ensures GetRarityColor(rarity) == GetRarityColor(1) && GetRarityName(rarity) != GetRarityName(1)
  {
  }
}
