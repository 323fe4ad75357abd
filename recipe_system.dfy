/**
 * URecipeSystem: the recipe library, the set of discovered recipes and the
 * usage counts. A combination is looked up by its order-independent
 * identifier; an unseen one is defined on the spot from the recipe rules.
 */
module Recipes {
  import opened Wrappers
  import opened RecipeData
  import opened RecipeRules

  /** The three collections the recipe system holds (the discovery timestamps are not modelled). */
  datatype Library = Library(
    definitions: map<string, RecipeDefinition>,
    discovered: set<string>,
    usageCounts: map<string, int>)

  /** Every definition is filed under its own identifier and every recorded usage count is positive. */
  ghost predicate LibraryValid(l: Library)
  {
    && (forall id :: id in l.definitions ==> l.definitions[id].recipeId == id)
    && (forall id :: id in l.usageCounts ==> l.usageCounts[id] >= 1)
  }

  /** GetRecipeUsageCount: the recorded count, or 0 for an identifier never used. */
  function UsageOf(counts: map<string, int>, id: string): (n: int)
    ensures id !in counts ==> n == 0
    ensures id in counts ==> n == counts[id]
  {
    if id in counts then counts[id] else 0
  }

  /** The definition EvaluateRecipe creates for a combination it has not seen. */
  function NewDefinition(b: BasePotion, adds: seq<Additive>): RecipeDefinition
  {
    RecipeDefinition(RecipeId(b, adds), DisplayNameOf(b, adds), DescriptionOf(b, adds), b, adds,
                     EffectsOf(b, adds), RarityOf(adds), false)
  }

  /** The library after one more use of id. */
  function Used(l: Library, id: string): (r: Library)
    ensures UsageOf(r.usageCounts, id) == UsageOf(l.usageCounts, id) + 1
    ensures forall other :: other != id ==> UsageOf(r.usageCounts, other) == UsageOf(l.usageCounts, other)
  {
    l.(usageCounts := l.usageCounts[id := UsageOf(l.usageCounts, id) + 1])
  }

  /** The definition an evaluation of input uses: the one filed under its identifier, or a new one. */
  function Found(l: Library, input: RecipeInput): RecipeDefinition
  {
    var id := RecipeId(input.basePotion, input.additives);
    if id in l.definitions then l.definitions[id] else NewDefinition(input.basePotion, input.additives)
  }

  /**
   * EvaluateRecipe: the library and the output after evaluating input. The
   * identifier is looked up; an unseen one is defined from the rules and
   * filed. The output carries the definition's name, description and rarity,
   * its effects scaled by the world-state multiplier, and whether this is the
   * first discovery, which marks the recipe discovered. The usage count of
   * the identifier goes up by one.
   */
  function Evaluate(l: Library, input: RecipeInput): (r: (Library, RecipeOutput))
    ensures r.1.recipeId == RecipeId(input.basePotion, input.additives)
    ensures r.1.isNewRecipe <==> r.1.recipeId !in l.discovered
  {
    var id := RecipeId(input.basePotion, input.additives);
    var def := Found(l, input);
    var m := CalculateWorldStateMultiplier(def, input.worldState);
    var isNew := id !in l.discovered;
    var filed := if isNew then def.(discovered := true) else def;
    var out := RecipeOutput(id, def.displayName, def.description, Scaled(def.baseEffects, m), m, isNew, def.rarity);
    (Used(Library(l.definitions[id := filed], l.discovered + {id}, l.usageCounts), id), out)
  }

  /**
   * An evaluation files its identifier and marks it discovered, changes no
   * other definition, counts one more use of that identifier and no other,
   * and keeps the library valid.
   */
  lemma EvaluateFrame(l: Library, input: RecipeInput)
    ensures var (l1, o) := Evaluate(l, input); var id := o.recipeId;
      && l1.definitions.Keys == l.definitions.Keys + {id} && l1.discovered == l.discovered + {id}
      && (forall other :: other in l.definitions && other != id ==> l1.definitions[other] == l.definitions[other])
      && UsageOf(l1.usageCounts, id) == UsageOf(l.usageCounts, id) + 1
      && (forall other :: other != id ==> UsageOf(l1.usageCounts, other) == UsageOf(l.usageCounts, other))
  {
  }

  /** The output reports the found definition's name, description and rarity, and its effects under the same keys. */
  lemma EvaluateReports(l: Library, input: RecipeInput)
    ensures var o := Evaluate(l, input).1; var d := Found(l, input);
      o.displayName == d.displayName && o.description == d.description && o.rarity == d.rarity
      && o.effects.Keys == d.baseEffects.Keys
  {
    var d := Found(l, input);
    ScaledAt(d.baseEffects, CalculateWorldStateMultiplier(d, input.worldState));
  }

  lemma EvaluateValid(l: Library, input: RecipeInput)
    requires LibraryValid(l)
    ensures LibraryValid(Evaluate(l, input).0)
  {
    var id := RecipeId(input.basePotion, input.additives);
    assert Found(l, input).recipeId == id;
  }

  /** DiscoverRecipe: a known identifier becomes discovered (its flag set the first time); an unknown one changes nothing. */
  function Discover(l: Library, id: string): (r: (Library, bool))
    ensures r.1 <==> id in l.definitions
    ensures !r.1 ==> r.0 == l
    ensures r.1 ==> r.0.discovered == l.discovered + {id} && r.0.definitions.Keys == l.definitions.Keys
    ensures r.0.usageCounts == l.usageCounts
    ensures LibraryValid(l) ==> LibraryValid(r.0)
  {
    if id !in l.definitions then (l, false)
    else if id in l.discovered then (l, true)
    else (l.(discovered := l.discovered + {id}, definitions := l.definitions[id := l.definitions[id].(discovered := true)]), true)
  }

  /** ResetRecipeLibrary: nothing discovered, no usage recorded, and every definition's flag cleared. */
  function Reset(l: Library): (r: Library)
    ensures r.discovered == {} && r.usageCounts == map[]
    ensures r.definitions.Keys == l.definitions.Keys
    ensures forall id :: id in r.definitions ==> r.definitions[id] == l.definitions[id].(discovered := false)
    ensures LibraryValid(l) ==> LibraryValid(r)
  {
    Library(map id | id in l.definitions :: l.definitions[id].(discovered := false), {}, map[])
  }

  // ---------------------------------------------------------------------
  // The default recipes.

  /** The base potion of the k-th default, in the order CreateDefaultRecipes adds them. */
  function DefaultBase(k: nat): BasePotion
  {
    match k
    case 0 => Ricochet
    case 1 => Piercing
    case 2 => Explosive
    case 3 => Ricochet
    case 4 => Ricochet
    case 5 => Ricochet
    case 6 => Explosive
    case _ => Piercing
  }

  function DefaultAdditives(k: nat): seq<Additive>
  {
    match k
    case 3 => [Split]
    case 4 => [Fire]
    case 5 => [Split, Fire]
    case 6 => [Chain, Lightning]
    case 7 => [Gravity, Ice, Poison]
    case _ => []
  }

  function DefaultName(k: nat): string
  {
    match k
    case 0 => "基础弹射药剂"
    case 1 => "基础穿透药剂"
    case 2 => "基础爆炸药剂"
    case 3 => "分裂弹射药剂"
    case 4 => "火焰弹射药剂"
    case 5 => "炎爆分裂药剂"
    case 6 => "雷霆连锁爆破"
    case _ => "极寒毒素黑洞"
  }

  function DefaultDescription(k: nat): string
  {
    match k
    case 0 => "最基础的弹射药剂，每次碰撞后伤害递增。"
    case 1 => "可以穿透敌人，对路径上的所有敌人造成伤害。"
    case 2 => "碰撞后产生爆炸，对范围内的敌人造成伤害。"
    case 3 => "碰撞后分裂成多个子代魔药，继续攻击敌人。"
    case 4 => "附加火焰伤害的弹射药剂，在高温环境下效果更强。"
    case 5 => "分裂后的每个子代都附带火焰伤害，形成火焰风暴。"
    case 6 => "爆炸后触发连锁雷电，对大范围敌人造成持续伤害。"
    case _ => "创造引力场吸引敌人，同时释放冰霜和毒素，造成持续伤害和减速。"
  }

  function DefaultRarity(k: nat): int
  {
    match k
    case 0 => 0
    case 1 => 0
    case 2 => 0
    case 3 => 1
    case 4 => 1
    case 5 => 2
    case 6 => 3
    case _ => 5
  }

  function DefaultEffects(k: nat): map<string, real>
  {
    match k
    case 0 => map[BaseDamageKey := 10.0, PotencyKey := 1.0, SpeedKey := 500.0]
    case 1 => map[BaseDamageKey := 15.0, PotencyKey := 1.0, SpeedKey := 600.0]
    case 2 => map[BaseDamageKey := 20.0, PotencyKey := 1.0, SpeedKey := 400.0, RadiusKey := 200.0]
    case 3 => map[BaseDamageKey := 10.0, PotencyKey := 1.0, SpeedKey := 500.0, SplitCountKey := 3.0]
    case 4 => map[BaseDamageKey := 10.0, PotencyKey := 1.0, SpeedKey := 500.0, FireDamageKey := 15.0]
    case 5 => map[BaseDamageKey := 10.0, PotencyKey := 1.2, SpeedKey := 500.0, SplitCountKey := 3.0, FireDamageKey := 20.0]
    case 6 => map[BaseDamageKey := 20.0, PotencyKey := 1.5, SpeedKey := 400.0, RadiusKey := 250.0,
                  ChainCountKey := 5.0, LightningDamageKey := 25.0]
    case _ => map[BaseDamageKey := 15.0, PotencyKey := 2.0, SpeedKey := 600.0, GravityStrengthKey := 1000.0,
                  IceDamageKey := 30.0, PoisonDamageKey := 35.0]
  }

  /** The k-th default recipe: filed under the identifier of its own combination, undiscovered. */
  function DefaultRecipe(k: nat): RecipeDefinition
  {
    RecipeDefinition(RecipeId(DefaultBase(k), DefaultAdditives(k)), DefaultName(k), DefaultDescription(k),
                     DefaultBase(k), DefaultAdditives(k), DefaultEffects(k), DefaultRarity(k), false)
  }

  /** The eight recipes of CreateDefaultRecipes, in the order they are added. */
  function DefaultRecipes(): (r: seq<RecipeDefinition>)
    ensures |r| == 8 && forall k :: 0 <= k < 8 ==> r[k] == DefaultRecipe(k)
  {
    seq(8, k requires 0 <= k => DefaultRecipe(k))
  }

  /** m with each recipe of ds filed under its identifier, one after the other: AddRecipe in turn. */
  function FileAll(m: map<string, RecipeDefinition>, ds: seq<RecipeDefinition>): map<string, RecipeDefinition>
  {
    if ds == [] then m else FileAll(m, ds[..|ds| - 1])[ds[|ds| - 1].recipeId := ds[|ds| - 1]]
  }

  /** m with the defaults filed one after the other under their identifiers, as CreateDefaultRecipes does. */
  function WithDefaults(m: map<string, RecipeDefinition>): map<string, RecipeDefinition>
  {
    FileAll(m, DefaultRecipes())
  }

  lemma FileStep(m: map<string, RecipeDefinition>, ds: seq<RecipeDefinition>, k: int)
    requires 0 <= k < |ds|
    ensures FileAll(m, ds[..k + 1]) == FileAll(m, ds[..k])[ds[k].recipeId := ds[k]]
  {
    assert ds[..k + 1][..k] == ds[..k];
  }

  /** Filing eight recipes is eight updates in order. */
  lemma FileEight(m: map<string, RecipeDefinition>, ds: seq<RecipeDefinition>)
    requires |ds| == 8
    ensures FileAll(m, ds) == m[ds[0].recipeId := ds[0]][ds[1].recipeId := ds[1]][ds[2].recipeId := ds[2]][ds[3].recipeId := ds[3]]
                               [ds[4].recipeId := ds[4]][ds[5].recipeId := ds[5]][ds[6].recipeId := ds[6]][ds[7].recipeId := ds[7]]
  {
    assert FileAll(m, ds[..0]) == m by { assert ds[..0] == []; }
    FileStep(m, ds, 0);
    FileStep(m, ds, 1);
    FileStep(m, ds, 2);
    FileStep(m, ds, 3);
    FileStep(m, ds, 4);
    FileStep(m, ds, 5);
    FileStep(m, ds, 6);
    FileStep(m, ds, 7);
    assert ds[..8] == ds;
  }

  /** Filing adds exactly the identifiers of ds. */
  lemma {:induction false} FileAllKeys(m: map<string, RecipeDefinition>, ds: seq<RecipeDefinition>)
    ensures FileAll(m, ds).Keys == m.Keys + (set k | 0 <= k < |ds| :: ds[k].recipeId)
    decreases |ds|
  {
    if ds != [] {
      var init := ds[..|ds| - 1];
      FileAllKeys(m, init);
      var all := set k | 0 <= k < |ds| :: ds[k].recipeId;
      var before := set k | 0 <= k < |init| :: init[k].recipeId;
      forall k | 0 <= k < |ds| ensures ds[k].recipeId in before + {ds[|ds| - 1].recipeId} {
        if k < |init| { assert init[k] == ds[k]; }
      }
      forall k | 0 <= k < |init| ensures init[k].recipeId in all {
        assert init[k] == ds[k];
      }
      assert all == before + {ds[|ds| - 1].recipeId};
    }
  }

  /** Identifiers of distinct positions of ds differ. */
  ghost predicate DistinctIds(ds: seq<RecipeDefinition>)
  {
    forall i, j :: 0 <= i < j < |ds| ==> ds[i].recipeId != ds[j].recipeId
  }

  /** With distinct identifiers, each recipe of ds is the one filed under its identifier. */
  lemma {:induction false} FileAllHolds(m: map<string, RecipeDefinition>, ds: seq<RecipeDefinition>, k: int)
    requires DistinctIds(ds) && 0 <= k < |ds|
    ensures ds[k].recipeId in FileAll(m, ds) && FileAll(m, ds)[ds[k].recipeId] == ds[k]
    decreases |ds|
  {
    if k < |ds| - 1 {
      var init := ds[..|ds| - 1];
      assert DistinctIds(init) by {
        forall i, j | 0 <= i < j < |init| ensures init[i].recipeId != init[j].recipeId {
          assert init[i] == ds[i] && init[j] == ds[j];
        }
      }
      FileAllHolds(m, init, k);
      assert init[k] == ds[k];
      assert ds[k].recipeId != ds[|ds| - 1].recipeId;
    }
  }

  /** Filing undiscovered recipes under their own identifiers into such a map keeps every entry under its own identifier and undiscovered. */
  lemma {:induction false} FileAllKeyed(m: map<string, RecipeDefinition>, ds: seq<RecipeDefinition>)
    requires forall id :: id in m ==> m[id].recipeId == id && !m[id].discovered
    requires forall k :: 0 <= k < |ds| ==> !ds[k].discovered
    ensures forall id :: id in FileAll(m, ds) ==> FileAll(m, ds)[id].recipeId == id && !FileAll(m, ds)[id].discovered
    decreases |ds|
  {
    if ds != [] {
      var init := ds[..|ds| - 1];
      assert forall k :: 0 <= k < |init| ==> !init[k].discovered by {
        forall k | 0 <= k < |init| ensures !init[k].discovered { assert init[k] == ds[k]; }
      }
      FileAllKeyed(m, init);
    }
  }

  lemma SortedIsSorted(s: seq<Additive>)
    requires SortedByValue(s)
    ensures SortByValue(s) == s
  {
    SortByValueSorts(s);
    SortedUnique(SortByValue(s), s);
  }

  /** With ascending additives, an identifier reads back as exactly its base and additives. */
  lemma SortedIdParses(b: BasePotion, adds: seq<Additive>)
    requires SortedByValue(adds)
    ensures ParseRecipeId(RecipeId(b, adds)) == Some((b, adds))
  {
    SortedIsSorted(adds);
    RecipeIdRoundTrip(b, adds);
  }

  lemma DefaultsSorted(k: nat)
    requires k < 8
    ensures SortedByValue(DefaultAdditives(k))
  {
  }

  /** No two defaults share a base and a list of additives. */
  lemma DefaultsDiffer(i: nat, j: nat)
    requires i < j < 8
    ensures DefaultBase(i) != DefaultBase(j) || DefaultAdditives(i) != DefaultAdditives(j)
  {
  }

  /** The eight default identifiers are distinct. */
  lemma DefaultIdsDistinct()
    ensures DistinctIds(DefaultRecipes())
  {
    var d := DefaultRecipes();
    forall i, j | 0 <= i < j < 8 ensures d[i].recipeId != d[j].recipeId {
      DefaultsDiffer(i, j);
      if d[i].recipeId == d[j].recipeId {
        DefaultsSorted(i);
        DefaultsSorted(j);
        SortedIdParses(DefaultBase(i), DefaultAdditives(i));
        SortedIdParses(DefaultBase(j), DefaultAdditives(j));
      }
    }
  }

  /**
   * After InitializeRecipes the library holds exactly the eight defaults,
   * each under its own identifier and none discovered.
   */
  lemma DefaultsFiled()
    ensures var m := WithDefaults(map[]);
      && m.Keys == (set k | 0 <= k < 8 :: DefaultRecipe(k).recipeId)
      && (forall k :: 0 <= k < 8 ==> DefaultRecipe(k).recipeId in m && m[DefaultRecipe(k).recipeId] == DefaultRecipe(k))
      && (forall id :: id in m ==> m[id].recipeId == id && !m[id].discovered)
  {
    DefaultKeys();
    DefaultsHeld();
    DefaultsKeyed();
  }

  lemma DefaultKeys()
    ensures WithDefaults(map[]).Keys == (set k | 0 <= k < 8 :: DefaultRecipe(k).recipeId)
  {
    var d := DefaultRecipes();
    FileAllKeys(map[], d);
    assert (set k | 0 <= k < |d| :: d[k].recipeId) == (set k | 0 <= k < 8 :: DefaultRecipe(k).recipeId);
  }

  lemma DefaultsHeld()
    ensures forall k :: 0 <= k < 8 ==> DefaultRecipe(k).recipeId in WithDefaults(map[]) && WithDefaults(map[])[DefaultRecipe(k).recipeId] == DefaultRecipe(k)
  {
    var d := DefaultRecipes();
    DefaultIdsDistinct();
    forall k | 0 <= k < 8 ensures DefaultRecipe(k).recipeId in WithDefaults(map[]) && WithDefaults(map[])[DefaultRecipe(k).recipeId] == DefaultRecipe(k) {
      FileAllHolds(map[], d, k);
    }
  }

  lemma DefaultsKeyed()
    ensures forall id :: id in WithDefaults(map[]) ==> WithDefaults(map[])[id].recipeId == id && !WithDefaults(map[])[id].discovered
  {
    FileAllKeyed(map[], DefaultRecipes());
  }

  /** Evaluating a default combination, with its additives in any order, finds that default rather than defining a new recipe. */
  lemma DefaultFound(k: nat, input: RecipeInput)
    requires k < 8
    requires input.basePotion == DefaultBase(k)
    requires multiset(input.additives) == multiset(DefaultAdditives(k))
    ensures var d := DefaultRecipe(k); var r := Evaluate(Library(WithDefaults(map[]), {}, map[]), input);
      r.1.recipeId == d.recipeId && r.1.displayName == d.displayName && r.1.description == d.description
      && r.1.rarity == d.rarity && r.1.isNewRecipe
  {
    var l := Library(WithDefaults(map[]), {}, map[]);
    assert RecipeId(input.basePotion, input.additives) == DefaultRecipe(k).recipeId by {
      RecipeIdOrderFree(DefaultBase(k), DefaultAdditives(k), input.basePotion, input.additives);
    }
    assert Found(l, input) == DefaultRecipe(k) by {
      DefaultsFiled();
    }
    EvaluateReports(l, input);
  }

  // ---------------------------------------------------------------------
  // The default identifiers written out.

  lemma IdsWithoutAdditives()
    ensures RecipeId(Ricochet, []) == "Recipe_0" && RecipeId(Piercing, []) == "Recipe_1"
    ensures RecipeId(Explosive, []) == "Recipe_2"
  {
    assert SortByValue([]) == [];
  }

  lemma PiecesOne(a: Additive)
    ensures Pieces([a]) == "_" + Decimal(AdditiveValue(a))
  {
    assert [a][..0] == [];
  }

  lemma PiecesMore(s: seq<Additive>, a: Additive)
    ensures Pieces(s + [a]) == Pieces(s) + "_" + Decimal(AdditiveValue(a))
  {
    assert (s + [a])[..|s|] == s;
  }

  lemma IdsWithOneAdditive()
    ensures RecipeId(Ricochet, [Split]) == "Recipe_0_3" && RecipeId(Ricochet, [Fire]) == "Recipe_0_9"
  {
    SortedIsSorted([Split]);
    SortedIsSorted([Fire]);
    PiecesOne(Split);
    PiecesOne(Fire);
  }

  lemma IdSplitFire()
    ensures RecipeId(Ricochet, [Split, Fire]) == "Recipe_0_3_9"
  {
    SortedIsSorted([Split, Fire]);
    PiecesOne(Split);
    PiecesMore([Split], Fire);
    assert [Split] + [Fire] == [Split, Fire];
  }

  lemma IdChainLightning()
    ensures RecipeId(Explosive, [Chain, Lightning]) == "Recipe_2_4_11"
  {
    SortedIsSorted([Chain, Lightning]);
    PiecesOne(Chain);
    PiecesMore([Chain], Lightning);
    assert [Chain] + [Lightning] == [Chain, Lightning];
    assert Decimal(11) == "11" by { assert Decimal(1) == "1"; }
  }

  lemma PiecesGravityIcePoison()
    ensures Pieces([Gravity, Ice, Poison]) == "_5_10_12"
  {
    PiecesOne(Gravity);
    PiecesMore([Gravity], Ice);
    assert [Gravity] + [Ice] == [Gravity, Ice];
    PiecesMore([Gravity, Ice], Poison);
    assert [Gravity, Ice] + [Poison] == [Gravity, Ice, Poison];
    assert Decimal(10) == "10" by { assert Decimal(1) == "1"; }
    assert Decimal(12) == "12" by { assert Decimal(1) == "1"; }
  }

  lemma IdGravityIcePoison()
    ensures RecipeId(Piercing, [Gravity, Ice, Poison]) == "Recipe_1_5_10_12"
  {
    SortedIsSorted([Gravity, Ice, Poison]);
    PiecesGravityIcePoison();
  }

  // ---------------------------------------------------------------------
  // Properties of the library operations.

  /**
   * Evaluating the same combination again, in any order of its additives,
   * finds the definition filed the first time: the same identifier, name,
   * description and rarity, no longer new, and one more use.
   */
  lemma EvaluateAgain(l: Library, in1: RecipeInput, in2: RecipeInput)
    requires in1.basePotion == in2.basePotion && multiset(in1.additives) == multiset(in2.additives)
    ensures var (l1, o1) := Evaluate(l, in1); var (l2, o2) := Evaluate(l1, in2);
      && o2.recipeId == o1.recipeId && o2.displayName == o1.displayName
      && o2.description == o1.description && o2.rarity == o1.rarity
      && !o2.isNewRecipe
      && UsageOf(l2.usageCounts, o1.recipeId) == UsageOf(l.usageCounts, o1.recipeId) + 2
  {
    RecipeIdOrderFree(in1.basePotion, in1.additives, in2.basePotion, in2.additives);
  }

  /** A combination never seen before is defined by the rules: name, description, rarity and base effects. */
  lemma EvaluateUnseen(l: Library, input: RecipeInput)
    requires RecipeId(input.basePotion, input.additives) !in l.definitions
    ensures var (l1, o) := Evaluate(l, input); var b := input.basePotion; var adds := input.additives;
      && o.displayName == DisplayNameOf(b, adds) && o.description == DescriptionOf(b, adds)
      && o.rarity == RarityOf(adds) && o.effects.Keys == EffectsOf(b, adds).Keys
      && l1.definitions[o.recipeId] == NewDefinition(b, adds).(discovered := o.isNewRecipe)
  {
    var def := NewDefinition(input.basePotion, input.additives);
    ScaledAt(def.baseEffects, CalculateWorldStateMultiplier(def, input.worldState));
  }

  /** Discovering twice is discovering once. */
  lemma DiscoverIdempotent(l: Library, id: string)
    ensures Discover(Discover(l, id).0, id) == Discover(l, id)
  {
  }

  /** After a reset every identifier reads as undiscovered and unused. */
  lemma ResetForgets(l: Library, id: string)
    ensures id !in Reset(l).discovered && UsageOf(Reset(l).usageCounts, id) == 0
    ensures id in Reset(l).definitions <==> id in l.definitions
  {
  }

  /** defs holds exactly the definitions filed in m under the identifiers of taken. */
  ghost predicate Listed(defs: seq<RecipeDefinition>, taken: set<string>, m: map<string, RecipeDefinition>)
  {
    forall d :: d in defs <==> exists id :: id in taken && id in m && m[id] == d
  }

  lemma ListedStep(defs: seq<RecipeDefinition>, taken: set<string>, m: map<string, RecipeDefinition>, id: string)
    requires Listed(defs, taken, m) && id in m
    ensures Listed(defs + [m[id]], taken + {id}, m)
  {
  }

  lemma ListedSkip(defs: seq<RecipeDefinition>, taken: set<string>, m: map<string, RecipeDefinition>, id: string)
    requires Listed(defs, taken, m) && id !in m
    ensures Listed(defs, taken + {id}, m)
  {
  }

  // ---------------------------------------------------------------------
  // The class.

  class RecipeSystem {
    var definitions: map<string, RecipeDefinition>
    var discovered: set<string>
    var usageCounts: map<string, int>

    function Snapshot(): Library
      reads this
    {
      Library(definitions, discovered, usageCounts)
    }

    ghost predicate Valid()
      reads this
    {
      LibraryValid(Snapshot())
    }

    /** A new system holds nothing until InitializeRecipes runs. */
    constructor()
      ensures Snapshot() == Library(map[], {}, map[]) && Valid()
    {
      definitions := map[];
      discovered := {};
      usageCounts := map[];
    }

    /**
     * Get: no system unless the world context leads to a game instance
     * (reachable); then the system registered with it, or a new one holding
     * the default recipes when none is registered.
     */
    static method Get(reachable: bool, registered: RecipeSystem?) returns (sys: RecipeSystem?)
      ensures !reachable ==> sys == null
      ensures reachable && registered != null ==> sys == registered
      ensures reachable && registered == null ==>
        sys != null && fresh(sys) && sys.Snapshot() == Library(WithDefaults(map[]), {}, map[]) && sys.Valid()
    {
      if !reachable {
        return null;
      }
      sys := registered;
      if sys == null {
        sys := new RecipeSystem();
        sys.InitializeRecipes();
      }
    }

    /** EvaluateRecipe, as Evaluate states it. */
    method EvaluateRecipe(input: RecipeInput) returns (out: RecipeOutput)
      modifies this
      ensures (Snapshot(), out) == Evaluate(old(Snapshot()), input)
      ensures old(Valid()) ==> Valid()
    {
      ghost var l0 := Snapshot();
      var id := GenerateRecipeID(input.basePotion, input.additives);
      var def := FindOrDefine(id, input);
      var m := CalculateWorldStateMultiplier(def, input.worldState);
      var effects := ScaleEffects(def.baseEffects, m);
      out := RecipeOutput(id, def.displayName, def.description, effects, m, false, def.rarity);
      if id !in discovered {
        out := out.(isNewRecipe := true);
        MarkDiscovered(id, def);
        assert definitions == l0.definitions[id := def.(discovered := true)];
      } else {
        assert discovered == l0.discovered + {id};
      }
      assert out == Evaluate(l0, input).1;
      assert Snapshot() == Library(l0.definitions[id := if out.isNewRecipe then def.(discovered := true) else def],
                                   l0.discovered + {id}, l0.usageCounts);
      IncrementRecipeUsage(id);
      if LibraryValid(l0) {
        EvaluateValid(l0, input);
      }
    }

    /** The first half of EvaluateRecipe: the definition filed under id, or a new one built by the rules and filed. */
    method FindOrDefine(id: string, input: RecipeInput) returns (def: RecipeDefinition)
      requires id == RecipeId(input.basePotion, input.additives)
      modifies this
      ensures def == Found(old(Snapshot()), input)
      ensures definitions == old(definitions)[id := def]
      ensures discovered == old(discovered) && usageCounts == old(usageCounts)
    {
      if id in definitions {
        def := definitions[id];
      } else {
        var name := GenerateDisplayName(input.basePotion, input.additives);
        var desc := GenerateDescription(input.basePotion, input.additives);
        var rarity := CalculateRarity(input.additives);
        var effects := CalculateBaseEffects(input.basePotion, input.additives);
        def := RecipeDefinition(id, name, desc, input.basePotion, input.additives, effects, rarity, false);
        definitions := definitions[id := def];
      }
    }

    /** The discovery step of EvaluateRecipe: id joins the discovered set and its definition's flag is set. */
    method MarkDiscovered(id: string, def: RecipeDefinition)
      modifies this
      ensures discovered == old(discovered) + {id}
      ensures definitions == old(definitions)[id := def.(discovered := true)]
      ensures usageCounts == old(usageCounts)
    {
      discovered := discovered + {id};
      definitions := definitions[id := def.(discovered := true)];
    }

    /** GetRecipeByID: the definition filed under id, or the caller's record untouched when there is none. */
    method GetRecipeByID(id: string, outRecipe: RecipeDefinition) returns (found: bool, recipe: RecipeDefinition)
      ensures found <==> id in definitions
      ensures recipe == if found then definitions[id] else outRecipe
    {
      if id in definitions {
        return true, definitions[id];
      }
      return false, outRecipe;
    }

    /** GetDiscoveredRecipes: each discovered identifier once, in no particular order. */
    method GetDiscoveredRecipes() returns (ids: seq<string>)
      ensures |ids| == |discovered|
      ensures forall id :: id in ids <==> id in discovered
    {
      ids := [];
      var todo := discovered;
      while todo != {}
        invariant todo <= discovered
        invariant forall id :: id in ids <==> id in discovered && id !in todo
        invariant |ids| + |todo| == |discovered|
        decreases todo
      {
        var id :| id in todo;
        ids := ids + [id];
        todo := todo - {id};
      }
    }

    /** GetDiscoveredRecipeDefinitions: the definition of every discovered identifier that has one, once each. */
    method GetDiscoveredRecipeDefinitions() returns (defs: seq<RecipeDefinition>)
      ensures |defs| == |discovered * definitions.Keys|
      ensures forall d :: d in defs <==> exists id :: id in discovered && id in definitions && definitions[id] == d
    {
      defs := [];
      var todo := discovered;
      ghost var taken: set<string> := {};
      while todo != {}
        invariant todo <= discovered && taken == discovered - todo
        invariant |defs| == |taken * definitions.Keys|
        invariant Listed(defs, taken, definitions)
        decreases todo
      {
        var id :| id in todo;
        if id in definitions {
          assert (taken + {id}) * definitions.Keys == taken * definitions.Keys + {id};
          ListedStep(defs, taken, definitions, id);
          defs := defs + [definitions[id]];
        } else {
          assert (taken + {id}) * definitions.Keys == taken * definitions.Keys;
          ListedSkip(defs, taken, definitions, id);
        }
        todo := todo - {id};
        taken := taken + {id};
      }
    }

    /** IsRecipeDiscovered. */
    predicate IsRecipeDiscovered(id: string)
      reads this
      ensures IsRecipeDiscovered(id) <==> id in Snapshot().discovered
    {
      id in discovered
    }

    /** DiscoverRecipe, as Discover states it. */
    method DiscoverRecipe(id: string) returns (ok: bool)
      modifies this
      ensures (Snapshot(), ok) == Discover(old(Snapshot()), id)
      ensures old(Valid()) ==> Valid()
    {
      if id !in definitions {
        return false;
      }
      if id !in discovered {
        discovered := discovered + {id};
        definitions := definitions[id := definitions[id].(discovered := true)];
      }
      return true;
    }

    /** GetRecipeUsageCount. */
    function GetRecipeUsageCount(id: string): (n: int)
      reads this
      ensures Valid() ==> n >= 0
      ensures n == UsageOf(Snapshot().usageCounts, id)
    {
      if id in usageCounts then usageCounts[id] else 0
    }

    /** IncrementRecipeUsage: FindOrAdd(id, 0) then one more. */
    method IncrementRecipeUsage(id: string)
      modifies this
      ensures Snapshot() == Used(old(Snapshot()), id)
      ensures old(Valid()) ==> Valid()
    {
      var count := if id in usageCounts then usageCounts[id] else 0;
      usageCounts := usageCounts[id := count + 1];
    }

    /** ResetRecipeLibrary, as Reset states it: clear the sets, then clear each definition's flag. */
    method ResetRecipeLibrary()
      modifies this
      ensures Snapshot() == Reset(old(Snapshot()))
      ensures old(Valid()) ==> Valid()
    {
      discovered := {};
      usageCounts := map[];
      var todo := definitions.Keys;
      ghost var before := definitions;
      while todo != {}
        invariant todo <= before.Keys && definitions.Keys == before.Keys
        invariant forall id :: id in todo ==> definitions[id] == before[id]
        invariant forall id :: id in before && id !in todo ==> definitions[id] == before[id].(discovered := false)
        invariant discovered == {} && usageCounts == map[]
        decreases todo
      {
        var id :| id in todo;
        definitions := definitions[id := definitions[id].(discovered := false)];
        todo := todo - {id};
      }
    }

    /** InitializeRecipes: empty the definitions and file the defaults; discoveries and counts are kept. */
    method InitializeRecipes()
      modifies this
      ensures definitions == WithDefaults(map[])
      ensures discovered == old(discovered) && usageCounts == old(usageCounts)
      ensures old(Valid()) ==> Valid()
    {
      definitions := map[];
      CreateDefaultRecipes();
      DefaultsFiled();
    }

    /** CreateDefaultRecipes: AddRecipe for each default in turn. */
    method CreateDefaultRecipes()
      modifies this
      ensures definitions == WithDefaults(old(definitions))
      ensures discovered == old(discovered) && usageCounts == old(usageCounts)
    {
      ghost var m0 := definitions;
      var d := DefaultRecipes();
      AddRecipe(d[0]);
      AddRecipe(d[1]);
      AddRecipe(d[2]);
      AddRecipe(d[3]);
      AddRecipe(d[4]);
      AddRecipe(d[5]);
      AddRecipe(d[6]);
      AddRecipe(d[7]);
      FileEight(m0, d);
    }

    /** AddRecipe: file the recipe under its identifier, replacing any definition already there. */
    method AddRecipe(recipe: RecipeDefinition)
      modifies this
      ensures definitions == old(definitions)[recipe.recipeId := recipe]
      ensures discovered == old(discovered) && usageCounts == old(usageCounts)
      ensures old(Valid()) ==> Valid()
    {
      definitions := definitions[recipe.recipeId := recipe];
    }

    /** GetAllRecipes: every definition once, in no particular order. */
    method GetAllRecipes() returns (defs: seq<RecipeDefinition>)
      ensures |defs| == |definitions.Keys|
      ensures forall d :: d in defs <==> exists id :: id in definitions && definitions[id] == d
    {
      defs := [];
      var todo := definitions.Keys;
      while todo != {}
        invariant todo <= definitions.Keys
        invariant |defs| + |todo| == |definitions.Keys|
        invariant forall d :: d in defs <==> exists id :: id in definitions && id !in todo && definitions[id] == d
        decreases todo
      {
        var id :| id in todo;
        defs := defs + [definitions[id]];
        todo := todo - {id};
      }
    }
  }
}
