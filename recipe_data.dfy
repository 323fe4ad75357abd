/**
 * The recipe data types: the base potions and additives, the recipe
 * identifier built from them, and the order-independent matching rule of a
 * recipe definition.
 */
module RecipeData {
  import opened Wrappers

  /** EBasePotionType, with its enum values 0..2. */
  datatype BasePotion = Ricochet | Piercing | Explosive

  /** EAdditiveType, with its enum values 0..12; NoAdditive is EAdditiveType::None. */
  datatype Additive =
    | NoAdditive | Duration | Amplify | Split | Chain | Gravity | Teleport
    | Speed | Slow | Fire | Ice | Lightning | Poison

  function BaseValue(b: BasePotion): (n: nat)
    ensures n <= 2
  {
    match b
    case Ricochet => 0
    case Piercing => 1
    case Explosive => 2
  }

  function AdditiveValue(a: Additive): (n: nat)
    ensures n <= 12
  {
    match a
    case NoAdditive => 0
    case Duration => 1
    case Amplify => 2
    case Split => 3
    case Chain => 4
    case Gravity => 5
    case Teleport => 6
    case Speed => 7
    case Slow => 8
    case Fire => 9
    case Ice => 10
    case Lightning => 11
    case Poison => 12
  }

  /** The base potion with a given enum value, if any. */
  function BaseFromValue(n: nat): (r: Option<BasePotion>)
    ensures r.Some? ==> BaseValue(r.value) == n
  {
    if n == 0 then Some(Ricochet)
    else if n == 1 then Some(Piercing)
    else if n == 2 then Some(Explosive)
    else None
  }

  /** The additive with a given enum value, if any. */
  function AdditiveFromValue(n: nat): (r: Option<Additive>)
    ensures r.Some? ==> AdditiveValue(r.value) == n
  {
    if n == 0 then Some(NoAdditive)
    else if n == 1 then Some(Duration)
    else if n == 2 then Some(Amplify)
    else if n == 3 then Some(Split)
    else if n == 4 then Some(Chain)
    else if n == 5 then Some(Gravity)
    else if n == 6 then Some(Teleport)
    else if n == 7 then Some(Speed)
    else if n == 8 then Some(Slow)
    else if n == 9 then Some(Fire)
    else if n == 10 then Some(Ice)
    else if n == 11 then Some(Lightning)
    else if n == 12 then Some(Poison)
    else None
  }

  /** Reading an enum value back gives the enum it came from. */
  lemma FromValueInverts(b: BasePotion, a: Additive)
    ensures BaseFromValue(BaseValue(b)) == Some(b)
    ensures AdditiveFromValue(AdditiveValue(a)) == Some(a)
  {
    match b
    case Ricochet =>
    case Piercing =>
    case Explosive =>
  }

  // ---------------------------------------------------------------------
  // Records.

  /** FRecipeInput: base, additives (in the caller's order) and the world state parameters. */
  datatype RecipeInput = RecipeInput(basePotion: BasePotion, additives: seq<Additive>, worldState: map<string, real>)

  /** A default FRecipeInput: Ricochet, no additives, no world state. */
  const DefaultInput := RecipeInput(Ricochet, [], map[])

  /** FRecipeOutput. */
  datatype RecipeOutput = RecipeOutput(
    recipeId: string,
    displayName: string,
    description: string,
    effects: map<string, real>,
    effectMultiplier: real,
    isNewRecipe: bool,
    rarity: int)

  /** A default FRecipeOutput: empty strings and effects, multiplier 1, not new, rarity 0. */
  const DefaultOutput := RecipeOutput("", "", "", map[], 1.0, false, 0)

  /** FRecipeDefinition. */
  datatype RecipeDefinition = RecipeDefinition(
    recipeId: string,
    displayName: string,
    description: string,
    basePotion: BasePotion,
    requiredAdditives: seq<Additive>,
    baseEffects: map<string, real>,
    rarity: int,
    discovered: bool)

  // ---------------------------------------------------------------------
  // Sorting additives by enum value.

  predicate SortedByValue(s: seq<Additive>)
  {
    forall i, j :: 0 <= i < j < |s| ==> AdditiveValue(s[i]) <= AdditiveValue(s[j])
  }

  /** a inserted before the first element with a larger enum value. */
  function InsertByValue(a: Additive, s: seq<Additive>): seq<Additive>
  {
    if s == [] then [a]
    else if AdditiveValue(a) <= AdditiveValue(s[0]) then [a] + s
    else [s[0]] + InsertByValue(a, s[1..])
  }

  /** The inserted sequence starts with a or with the old head. */
  lemma InsertHead(a: Additive, s: seq<Additive>)
    ensures InsertByValue(a, s) != []
    ensures InsertByValue(a, s)[0] == a || (s != [] && InsertByValue(a, s)[0] == s[0])
  {
  }

  /** Inserting adds exactly a. */
  lemma {:induction false} InsertAdds(a: Additive, s: seq<Additive>)
    ensures multiset(InsertByValue(a, s)) == multiset(s) + multiset{a}
    decreases |s|
  {
    if s != [] && AdditiveValue(a) > AdditiveValue(s[0]) {
      InsertAdds(a, s[1..]);
      assert s == [s[0]] + s[1..];
    }
  }

  /** Inserting into a sorted sequence keeps it sorted. */
  lemma {:induction false} InsertSorted(a: Additive, s: seq<Additive>)
    requires SortedByValue(s)
    ensures SortedByValue(InsertByValue(a, s))
    decreases |s|
  {
    if s != [] && AdditiveValue(a) > AdditiveValue(s[0]) {
      var rest := InsertByValue(a, s[1..]);
      assert SortedByValue(rest) by {
        SortedTail(s);
        InsertSorted(a, s[1..]);
      }
      assert AdditiveValue(s[0]) <= AdditiveValue(rest[0]) by {
        InsertHead(a, s[1..]);
        if rest[0] != a { assert AdditiveValue(s[0]) <= AdditiveValue(s[1]); }
      }
      SortedCons(s[0], rest);
    } else if s != [] {
      SortedCons(a, s);
    }
  }

  /** Putting x before a sorted sequence whose head is no smaller keeps it sorted. */
  lemma SortedCons(x: Additive, s: seq<Additive>)
    requires SortedByValue(s)
    requires s != [] ==> AdditiveValue(x) <= AdditiveValue(s[0])
    ensures SortedByValue([x] + s)
  {
    var r := [x] + s;
    forall i, j | 0 <= i < j < |r| ensures AdditiveValue(r[i]) <= AdditiveValue(r[j]) {
      if i == 0 && j > 1 {
        assert AdditiveValue(s[0]) <= AdditiveValue(s[j - 1]);
      }
    }
  }

  lemma SortedTail(s: seq<Additive>)
    requires SortedByValue(s) && s != []
    ensures SortedByValue(s[1..])
  {
    forall i, j | 0 <= i < j < |s| - 1 ensures AdditiveValue(s[1..][i]) <= AdditiveValue(s[1..][j]) {
      assert s[1..][i] == s[i + 1] && s[1..][j] == s[j + 1];
    }
  }

  /**
   * The additives in ascending enum order. The source sorts a copy with
   * TArray::Sort; any sorting algorithm gives this sequence, because a sorted
   * permutation is unique (SortedUnique).
   */
  function SortByValue(s: seq<Additive>): seq<Additive>
  {
    if s == [] then [] else InsertByValue(s[0], SortByValue(s[1..]))
  }

  /** SortByValue sorts, and keeps every additive with its count. */
  lemma {:induction false} SortByValueSorts(s: seq<Additive>)
    ensures SortedByValue(SortByValue(s)) && multiset(SortByValue(s)) == multiset(s)
    decreases |s|
  {
    if s != [] {
      SortByValueSorts(s[1..]);
      InsertSorted(s[0], SortByValue(s[1..]));
      InsertAdds(s[0], SortByValue(s[1..]));
      assert s == [s[0]] + s[1..];
    }
  }

  /** Enum values identify the additive. */
  lemma ValueInjective(a: Additive, b: Additive)
    requires AdditiveValue(a) == AdditiveValue(b)
    ensures a == b
  {
    FromValueInverts(Ricochet, a);
    FromValueInverts(Ricochet, b);
  }

  /** Two sorted sequences holding the same additives are equal. */
  lemma {:induction false} SortedUnique(a: seq<Additive>, b: seq<Additive>)
    requires SortedByValue(a) && SortedByValue(b) && multiset(a) == multiset(b)
    ensures a == b
    decreases |a|
  {
    if a != [] {
      SortedHeads(a, b);
      assert a[1..] == b[1..] by {
        MultisetTail(a);
        MultisetTail(b);
        SortedTail(a);
        SortedTail(b);
        SortedUnique(a[1..], b[1..]);
      }
      assert a == [a[0]] + a[1..];
      assert b == [b[0]] + b[1..];
    }
  }

  /** Sorted sequences with the same additives start with the same one. */
  lemma SortedHeads(a: seq<Additive>, b: seq<Additive>)
    requires SortedByValue(a) && SortedByValue(b) && multiset(a) == multiset(b) && a != []
    ensures b != [] && a[0] == b[0]
  {
    assert |b| == |a| by { assert |multiset(a)| == |multiset(b)|; }
    assert a[0] in multiset(b);
    assert b[0] in multiset(a);
    var i :| 0 <= i < |b| && b[i] == a[0];
    var j :| 0 <= j < |a| && a[j] == b[0];
    assert AdditiveValue(b[0]) <= AdditiveValue(a[0]) by { if i > 0 { assert AdditiveValue(b[0]) <= AdditiveValue(b[i]); } }
    assert AdditiveValue(a[0]) <= AdditiveValue(b[0]) by { if j > 0 { assert AdditiveValue(a[0]) <= AdditiveValue(a[j]); } }
    ValueInjective(a[0], b[0]);
  }

  lemma MultisetTail(a: seq<Additive>)
    requires a != []
    ensures multiset(a[1..]) == multiset(a) - multiset{a[0]}
  {
    assert a == [a[0]] + a[1..];
  }

  // ---------------------------------------------------------------------
  // Recipe identifiers.

  /** The decimal digits of n, as FString::Printf("%d") writes them. */
  function Decimal(n: nat): (s: string)
    ensures |s| >= 1
  {
    if n < 10 then [DigitChar(n)] else Decimal(n / 10) + [DigitChar(n % 10)]
  }

  function DigitChar(d: nat): (c: char)
    requires d < 10
    ensures '0' <= c <= '9'
  {
    ['0', '1', '2', '3', '4', '5', '6', '7', '8', '9'][d]
  }

  /** One "_<n>" piece per additive, in order. */
  function Pieces(s: seq<Additive>): string
  {
    if s == [] then "" else Pieces(s[..|s| - 1]) + "_" + Decimal(AdditiveValue(s[|s| - 1]))
  }

  /** GenerateRecipeID: "Recipe_<base>" then "_<n>" for each additive in ascending enum order, duplicates kept. */
  function RecipeId(b: BasePotion, adds: seq<Additive>): string
  {
    "Recipe_" + Decimal(BaseValue(b)) + Pieces(SortByValue(adds))
  }

  /** GenerateRecipeID: format the base, sort a copy of the additives, append one piece each. */
  method GenerateRecipeID(b: BasePotion, adds: seq<Additive>) returns (id: string)
    ensures id == RecipeId(b, adds)
  {
    id := "Recipe_" + Decimal(BaseValue(b));
    var sorted := SortByValue(adds);
    for i := 0 to |sorted|
      invariant id == "Recipe_" + Decimal(BaseValue(b)) + Pieces(sorted[..i])
    {
      PiecesSnoc(sorted, i);
      id := id + "_" + Decimal(AdditiveValue(sorted[i]));
    }
    assert sorted[..|sorted|] == sorted;
  }

  lemma PiecesSnoc(s: seq<Additive>, i: int)
    requires 0 <= i < |s|
    ensures Pieces(s[..i + 1]) == Pieces(s[..i]) + "_" + Decimal(AdditiveValue(s[i]))
  {
    assert s[..i + 1][..i] == s[..i];
  }

  // ---------------------------------------------------------------------
  // Reading an identifier back: the inverse of RecipeId.

  /** The tokens of s between underscores: SplitTokens("a_b") == ["a", "b"]. */
  function SplitTokens(s: string): (r: seq<string>)
    ensures |r| >= 1
    decreases |s|
  {
    if '_' !in s then [s]
    else
      var i := FirstUnderscore(s);
      [s[..i]] + SplitTokens(s[i + 1..])
  }

  function FirstUnderscore(s: string): (i: nat)
    requires '_' in s
    ensures i < |s| && s[i] == '_' && '_' !in s[..i]
  {
    if s[0] == '_' then 0
    else
      assert s == [s[0]] + s[1..];
      var j := FirstUnderscore(s[1..]);
      assert s[..j + 1] == [s[0]] + s[1..][..j];
      j + 1
  }

  /** The value of a string of decimal digits, if it is one. */
  function DecimalValue(s: string): Option<nat>
  {
    if s == [] then None
    else
      var d := s[|s| - 1];
      if !('0' <= d <= '9') then None
      else if |s| == 1 then Some(d as int - '0' as int)
      else match DecimalValue(s[..|s| - 1])
        case None => None
        case Some(v) => Some(v * 10 + (d as int - '0' as int))
  }

  lemma {:induction false} DecimalRoundTrip(n: nat)
    ensures DecimalValue(Decimal(n)) == Some(n)
  {
    if n >= 10 {
      var s := Decimal(n);
      assert s[..|s| - 1] == Decimal(n / 10);
      DecimalRoundTrip(n / 10);
      DigitValue(n % 10);
    } else {
      DigitValue(n);
    }
  }

  lemma DigitValue(d: nat)
    requires d < 10
    ensures DigitChar(d) as int - '0' as int == d
  {
  }

  /** The additives named by a list of decimal tokens, if every token names one. */
  function AdditivesOf(ts: seq<string>): Option<seq<Additive>>
  {
    if ts == [] then Some([])
    else match (AdditivesOf(ts[..|ts| - 1]), DecimalValue(ts[|ts| - 1]))
      case (Some(init), Some(v)) =>
        (match AdditiveFromValue(v)
         case Some(a) => Some(init + [a])
         case None => None)
      case _ => None
  }

  /** The base potion and sorted additives an identifier names, if it is a well-formed identifier. */
  function ParseRecipeId(id: string): Option<(BasePotion, seq<Additive>)>
  {
    var ts := SplitTokens(id);
    if |ts| < 2 || ts[0] != "Recipe" then None
    else match (DecimalValue(ts[1]), AdditivesOf(ts[2..]))
      case (Some(v), Some(adds)) =>
        (match BaseFromValue(v)
         case Some(b) => Some((b, adds))
         case None => None)
      case _ => None
  }

  /** The tokens of the pieces of s: one decimal per additive. */
  function PieceTokens(s: seq<Additive>): (ts: seq<string>)
    ensures |ts| == |s|
  {
    if s == [] then [] else PieceTokens(s[..|s| - 1]) + [Decimal(AdditiveValue(s[|s| - 1]))]
  }

  /** Splitting "t_rest" at its first underscore, where t has none. */
  lemma SplitCons(t: string, rest: string)
    requires '_' !in t
    ensures SplitTokens(t + "_" + rest) == [t] + SplitTokens(rest)
  {
    var s := t + "_" + rest;
    assert s[|t|] == '_';
    var i := FirstUnderscore(s);
    assert s[..|t|] == t;
    assert i == |t|;
    assert s[..i] == t;
    assert s[i + 1..] == rest;
  }

  /** The first token of SplitTokens(s) is s up to the first underscore, and the rest is Split of the remainder. */
  lemma {:induction false} SplitPieces(t: string, s: seq<Additive>)
    requires '_' !in t
    ensures SplitTokens(t + Pieces(s)) == [t] + PieceTokens(s)
    decreases |s|
  {
    if s == [] {
      assert t + Pieces(s) == t;
    } else {
      // Peel the first additive off the front: t + Pieces(s) == t + "_" + (d + Pieces(s[1..]) with d glued on).
      var d := Decimal(AdditiveValue(s[0]));
      NoUnderscoreInDecimal(AdditiveValue(s[0]));
      PiecesFront(s);
      PieceTokensFront(s);
      assert t + Pieces(s) == t + "_" + (d + Pieces(s[1..]));
      SplitCons(t, d + Pieces(s[1..]));
      SplitPieces(d, s[1..]);
    }
  }

  lemma {:induction false} NoUnderscoreInDecimal(n: nat)
    ensures '_' !in Decimal(n)
  {
    if n >= 10 {
      NoUnderscoreInDecimal(n / 10);
    }
  }

  /** Pieces, built from the back, also peels from the front. */
  lemma {:induction false} PiecesFront(s: seq<Additive>)
    requires s != []
    ensures Pieces(s) == "_" + Decimal(AdditiveValue(s[0])) + Pieces(s[1..])
    decreases |s|
  {
    if |s| > 1 {
      var init := s[..|s| - 1];
      assert init[0] == s[0] && init[1..] == s[1..][..|s[1..]| - 1];
      PiecesFront(init);
      assert s[1..][|s[1..]| - 1] == s[|s| - 1];
    } else {
      assert s[1..] == [];
      assert s[..|s| - 1] == [];
    }
  }

  lemma {:induction false} PieceTokensFront(s: seq<Additive>)
    requires s != []
    ensures PieceTokens(s) == [Decimal(AdditiveValue(s[0]))] + PieceTokens(s[1..])
    decreases |s|
  {
    if |s| > 1 {
      var init := s[..|s| - 1];
      assert init[0] == s[0] && init[1..] == s[1..][..|s[1..]| - 1];
      PieceTokensFront(init);
      assert s[1..][|s[1..]| - 1] == s[|s| - 1];
    } else {
      assert s[1..] == [];
      assert s[..|s| - 1] == [];
    }
  }

  /** Reading the piece tokens back gives the additives. */
  lemma {:induction false} AdditivesOfPieces(s: seq<Additive>)
    ensures AdditivesOf(PieceTokens(s)) == Some(s)
    decreases |s|
  {
    if s != [] {
      var ts := PieceTokens(s);
      assert ts[..|ts| - 1] == PieceTokens(s[..|s| - 1]);
      AdditivesOfPieces(s[..|s| - 1]);
      DecimalRoundTrip(AdditiveValue(s[|s| - 1]));
      FromValueInverts(Ricochet, s[|s| - 1]);
      assert s[..|s| - 1] + [s[|s| - 1]] == s;
    }
  }

  /** Reading an identifier back gives its base potion and its additives in ascending enum order. */
  lemma RecipeIdRoundTrip(b: BasePotion, adds: seq<Additive>)
    ensures ParseRecipeId(RecipeId(b, adds)) == Some((b, SortByValue(adds)))
  {
    IdTextRoundTrip(b, SortByValue(adds));
  }

  /** "Recipe_<base>" followed by the pieces of any additive sequence reads back as that base and sequence. */
  lemma IdTextRoundTrip(b: BasePotion, s: seq<Additive>)
    ensures ParseRecipeId("Recipe_" + Decimal(BaseValue(b)) + Pieces(s)) == Some((b, s))
  {
    var d := Decimal(BaseValue(b));
    var ts := SplitTokens("Recipe_" + d + Pieces(s));
    assert ts == ["Recipe", d] + PieceTokens(s) by {
      NoUnderscoreInDecimal(BaseValue(b));
      IdTokens(d, s);
    }
    assert DecimalValue(ts[1]) == Some(BaseValue(b)) by { DecimalRoundTrip(BaseValue(b)); }
    assert AdditivesOf(ts[2..]) == Some(s) by {
      assert ts[2..] == PieceTokens(s);
      AdditivesOfPieces(s);
    }
    assert BaseFromValue(BaseValue(b)) == Some(b) by { FromValueInverts(b, NoAdditive); }
  }

  lemma IdTokens(d: string, s: seq<Additive>)
    requires '_' !in d
    ensures SplitTokens("Recipe_" + d + Pieces(s)) == ["Recipe", d] + PieceTokens(s)
  {
    assert "Recipe_" + d + Pieces(s) == "Recipe" + "_" + (d + Pieces(s));
    SplitCons("Recipe", d + Pieces(s));
    SplitPieces(d, s);
  }

  /**
   * The identifier ignores the order of the additives and nothing else: two
   * inputs get the same identifier exactly when they have the same base and
   * the same additives, duplicates counted.
   */
  lemma RecipeIdOrderFree(b1: BasePotion, a1: seq<Additive>, b2: BasePotion, a2: seq<Additive>)
    ensures RecipeId(b1, a1) == RecipeId(b2, a2) <==> b1 == b2 && multiset(a1) == multiset(a2)
  {
    if RecipeId(b1, a1) == RecipeId(b2, a2) {
      SameIdSameAdditives(b1, a1, b2, a2);
    }
    if b1 == b2 && multiset(a1) == multiset(a2) {
      SameAdditivesSameSort(a1, a2);
    }
  }

  lemma SameIdSameAdditives(b1: BasePotion, a1: seq<Additive>, b2: BasePotion, a2: seq<Additive>)
    requires RecipeId(b1, a1) == RecipeId(b2, a2)
    ensures b1 == b2 && multiset(a1) == multiset(a2)
  {
    assert b1 == b2 && SortByValue(a1) == SortByValue(a2) by {
      RecipeIdRoundTrip(b1, a1);
      RecipeIdRoundTrip(b2, a2);
    }
    SortByValueSorts(a1);
    SortByValueSorts(a2);
  }

  lemma SameAdditivesSameSort(a1: seq<Additive>, a2: seq<Additive>)
    requires multiset(a1) == multiset(a2)
    ensures SortByValue(a1) == SortByValue(a2)
  {
    SortByValueSorts(a1);
    SortByValueSorts(a2);
    SortedUnique(SortByValue(a1), SortByValue(a2));
  }

  // ---------------------------------------------------------------------
  // Matching.

  predicate Distinct(s: seq<Additive>)
  {
    forall i, j :: 0 <= i < j < |s| ==> s[i] != s[j]
  }

  /** s with every copy of a removed (TArray::Remove). */
  function RemoveAll(s: seq<Additive>, a: Additive): (r: seq<Additive>)
    ensures forall x :: x in r <==> x in s && x != a
    ensures forall x :: x != a ==> multiset(r)[x] == multiset(s)[x]
    ensures |r| <= |s|
  {
    if s == [] then []
    else
      assert s == [s[0]] + s[1..];
      (if s[0] == a then [] else [s[0]]) + RemoveAll(s[1..], a)
  }

  /** s with every element of rs removed. */
  function RemoveEach(s: seq<Additive>, rs: seq<Additive>): (r: seq<Additive>)
    ensures forall x :: x in r <==> x in s && x !in rs
  {
    if rs == [] then s else RemoveAll(RemoveEach(s, rs[..|rs| - 1]), rs[|rs| - 1])
  }

  /** What Matches decides: same base, pairwise distinct required additives, and the input's additives a permutation of them. */
  predicate MatchesSpec(def: RecipeDefinition, input: RecipeInput)
  {
    input.basePotion == def.basePotion && Distinct(def.requiredAdditives)
    && multiset(input.additives) == multiset(def.requiredAdditives)
  }

  /**
   * FRecipeDefinition::Matches: compare the base and the counts, then for
   * each required additive in order check that the input copy still holds it
   * and remove every copy of it; match when nothing is left over. Because
   * Remove deletes every copy, a repeated required additive is missing the
   * second time, so such a definition never matches.
   */
  method Matches(def: RecipeDefinition, input: RecipeInput) returns (r: bool)
    ensures r <==> MatchesSpec(def, input)
  {
    if input.basePotion != def.basePotion {
      return false;
    }
    if |input.additives| != |def.requiredAdditives| {
      MultisetSize(input.additives, def.requiredAdditives);
      return false;
    }
    var left := input.additives;
    var req := def.requiredAdditives;
    RemovedStart(input.additives, req);
    for i := 0 to |req|
      invariant Removed(input.additives, req, i, left)
    {
      if req[i] !in left {
        MissingFails(def, input, i, left);
        return false;
      }
      RemoveStep(input.additives, req, i, left);
      left := RemoveAll(left, req[i]);
    }
    LeftoverDecides(def, input, left);
    r := left == [];
  }

  /** The state of Matches after i required additives: each was present, none repeated, and every copy of each is gone. */
  ghost predicate Removed(inp: seq<Additive>, req: seq<Additive>, i: int, left: seq<Additive>)
  {
    0 <= i <= |req| && Distinct(req[..i])
    && (forall k :: 0 <= k < i ==> req[k] in inp)
    && left == RemoveEach(inp, req[..i])
  }

  lemma RemovedStart(inp: seq<Additive>, req: seq<Additive>)
    ensures Removed(inp, req, 0, inp)
  {
    assert req[..0] == [];
  }

  /** A present required additive is removed and the state moves on. */
  lemma RemoveStep(inp: seq<Additive>, req: seq<Additive>, i: int, left: seq<Additive>)
    requires Removed(inp, req, i, left) && i < |req| && req[i] in left
    ensures Removed(inp, req, i + 1, RemoveAll(left, req[i]))
  {
    var p := req[..i + 1];
    assert p[..i] == req[..i];
    assert req[i] !in req[..i];
    forall j, k | 0 <= j < k < i + 1 ensures p[j] != p[k] {
      if k == i { assert p[j] in req[..i]; } else { assert p[j] == req[..i][j] && p[k] == req[..i][k]; }
    }
  }

  /** A required additive missing from what is left means no match. */
  lemma MissingFails(def: RecipeDefinition, input: RecipeInput, i: int, left: seq<Additive>)
    requires Removed(input.additives, def.requiredAdditives, i, left)
    requires i < |def.requiredAdditives| && def.requiredAdditives[i] !in left
    ensures !MatchesSpec(def, input)
  {
    var req := def.requiredAdditives;
    var x := req[i];
    if x in req[..i] {
      var k :| 0 <= k < i && req[..i][k] == x;
      NotDistinct(req, k, i);
    } else {
      assert x !in input.additives;
      assert x in multiset(req);
    }
  }

  /** Once every required additive is handled, the match holds exactly when nothing is left. */
  lemma LeftoverDecides(def: RecipeDefinition, input: RecipeInput, left: seq<Additive>)
    requires input.basePotion == def.basePotion && |input.additives| == |def.requiredAdditives|
    requires Removed(input.additives, def.requiredAdditives, |def.requiredAdditives|, left)
    ensures left == [] <==> MatchesSpec(def, input)
  {
    var req := def.requiredAdditives;
    assert req[..|req|] == req;
    if left == [] {
      assert forall x :: x in input.additives ==> x !in left;
      forall x | x in req ensures x in input.additives {
        var k :| 0 <= k < |req| && req[k] == x;
      }
      SameElementsSameMultiset(input.additives, req);
    } else {
      var x := left[0];
      assert x in left;
      assert x in multiset(input.additives);
      assert x !in multiset(req);
    }
  }

  /** A repeated required additive makes the specification fail. */
  lemma NotDistinct(s: seq<Additive>, k: int, i: int)
    requires 0 <= k < i < |s| && s[k] == s[i]
    ensures !Distinct(s)
  {
  }

  /** Different lengths, different multisets. */
  lemma MultisetSize(a: seq<Additive>, b: seq<Additive>)
    requires |a| != |b|
    ensures multiset(a) != multiset(b)
  {
    assert |multiset(a)| == |a| && |multiset(b)| == |b|;
  }

  /** Two sequences of the same length with the same elements, one of them distinct, are permutations of each other. */
  lemma SameElementsSameMultiset(a: seq<Additive>, b: seq<Additive>)
    requires |a| == |b| && Distinct(b)
    requires forall x :: x in a ==> x in b
    requires forall x :: x in b ==> x in a
    ensures multiset(a) == multiset(b)
  {
    DistinctCard(b);
    CardAtMost(a);
    assert (set x | x in a) == (set x | x in b);
    CardDistinct(a);
    forall x ensures multiset(a)[x] == multiset(b)[x] {
      DistinctCount(a, x);
      DistinctCount(b, x);
    }
  }

  /** The elements of a distinct sequence number its length. */
  lemma {:induction false} DistinctCard(s: seq<Additive>)
    requires Distinct(s)
    ensures |set x | x in s| == |s|
    decreases |s|
  {
    if s != [] {
      var t := s[1..];
      assert Distinct(t);
      DistinctCard(t);
      assert (set x | x in s) == (set x | x in t) + {s[0]};
      assert s[0] !in t;
    }
  }

  /** A sequence has at most as many elements as its length. */
  lemma {:induction false} CardAtMost(s: seq<Additive>)
    ensures |set x | x in s| <= |s|
    decreases |s|
  {
    if s != [] {
      var t := s[1..];
      CardAtMost(t);
      assert (set x | x in s) == (set x | x in t) + {s[0]};
    }
  }

  /** A sequence with as many elements as its length is distinct. */
  lemma {:induction false} CardDistinct(s: seq<Additive>)
    requires |set x | x in s| == |s|
    ensures Distinct(s)
    decreases |s|
  {
    if s != [] {
      var t := s[1..];
      CardAtMost(t);
      assert (set x | x in s) == (set x | x in t) + {s[0]};
      assert s[0] !in t;
      CardDistinct(t);
      forall i, j | 0 <= i < j < |s| ensures s[i] != s[j] {
        if i == 0 { assert s[j] == t[j - 1]; }
        else { assert s[i] == t[i - 1] && s[j] == t[j - 1]; }
      }
    }
  }

  /** In a distinct sequence each element occurs once. */
  lemma {:induction false} DistinctCount(s: seq<Additive>, x: Additive)
    requires Distinct(s)
    ensures multiset(s)[x] == if x in s then 1 else 0
    decreases |s|
  {
    if s != [] {
      var t := s[1..];
      assert s == [s[0]] + t;
      assert Distinct(t);
      DistinctCount(t, x);
      assert s[0] !in t;
    }
  }

  /**
   * For a definition whose required additives are distinct, matching is the
   * same as having the same identifier.
   */
  lemma MatchesIffSameId(def: RecipeDefinition, input: RecipeInput)
    requires Distinct(def.requiredAdditives)
    ensures MatchesSpec(def, input) <==>
      RecipeId(def.basePotion, def.requiredAdditives) == RecipeId(input.basePotion, input.additives)
  {
    RecipeIdOrderFree(def.basePotion, def.requiredAdditives, input.basePotion, input.additives);
  }

  /** Matching looks at neither the world state nor the definition's other fields. */
  lemma MatchesIgnoresWorldState(def: RecipeDefinition, input: RecipeInput, ws: map<string, real>)
    ensures MatchesSpec(def, input) <==> MatchesSpec(def, input.(worldState := ws))
  {
  }
}
