/**
 * UAlchemySystem: a table of base elements and a list of two-element
 * recipes, searched in either order.
 */
module Alchemy {
  import opened Wrappers

  /** FElement. */
  datatype Element = Element(name: string, kind: string, power: int)

  /** FRecipe: two element names and the element they make. */
  datatype Recipe = Recipe(element1: string, element2: string, result: Element)

  /** A recipe accepts the pair in its own order or swapped. */
  predicate Accepts(r: Recipe, a: string, b: string)
  {
    (r.element1 == a && r.element2 == b) || (r.element1 == b && r.element2 == a)
  }

  /** The result of the first recipe in the list that accepts the pair. */
  function FirstMatch(recipes: seq<Recipe>, a: string, b: string): Option<Element>
  {
    if recipes == [] then None
    else if Accepts(recipes[0], a, b) then Some(recipes[0].result)
    else FirstMatch(recipes[1..], a, b)
  }

  /** A match is found exactly when some recipe accepts the pair, and it is the earliest one's result. */
  lemma {:induction false} FirstMatchIsFirst(recipes: seq<Recipe>, a: string, b: string)
    ensures FirstMatch(recipes, a, b) == None <==> forall i :: 0 <= i < |recipes| ==> !Accepts(recipes[i], a, b)
    ensures FirstMatch(recipes, a, b) != None ==>
      exists i :: 0 <= i < |recipes| && Accepts(recipes[i], a, b)
        && FirstMatch(recipes, a, b) == Some(recipes[i].result)
        && forall j :: 0 <= j < i ==> !Accepts(recipes[j], a, b)
    decreases |recipes|
  {
    if recipes != [] && !Accepts(recipes[0], a, b) {
      FirstMatchIsFirst(recipes[1..], a, b);
      if FirstMatch(recipes, a, b) != None {
        var i :| 0 <= i < |recipes[1..]| && Accepts(recipes[1..][i], a, b)
          && FirstMatch(recipes[1..], a, b) == Some(recipes[1..][i].result)
          && forall j :: 0 <= j < i ==> !Accepts(recipes[1..][j], a, b);
        assert Accepts(recipes[i + 1], a, b);
        forall j | 0 <= j < i + 1
          ensures !Accepts(recipes[j], a, b)
        {
          if j > 0 {
            assert recipes[j] == recipes[1..][j - 1];
          }
        }
      } else {
        forall i | 0 <= i < |recipes|
          ensures !Accepts(recipes[i], a, b)
        {
          if i > 0 {
            assert recipes[i] == recipes[1..][i - 1];
          }
        }
      }
    }
  }

  /** The order of the two names does not matter. */
  lemma {:induction false} FirstMatchSymmetric(recipes: seq<Recipe>, a: string, b: string)
    ensures FirstMatch(recipes, a, b) == FirstMatch(recipes, b, a)
    decreases |recipes|
  {
    if recipes != [] {
      assert Accepts(recipes[0], a, b) == Accepts(recipes[0], b, a);
      FirstMatchSymmetric(recipes[1..], a, b);
    }
  }

  /** The four base elements, each of power 10. */
  const BaseElements: seq<Element> := [
    Element("Fire", "Fire", 10),
    Element("Water", "Water", 10),
    Element("Earth", "Earth", 10),
    Element("Air", "Air", 10)]

  /** The four starting recipes. */
  const BaseRecipes: seq<Recipe> := [
    Recipe("Fire", "Water", Element("Steam", "Hybrid", 15)),
    Recipe("Earth", "Water", Element("Mud", "Hybrid", 12)),
    Recipe("Fire", "Earth", Element("Lava", "Hybrid", 18)),
    Recipe("Air", "Water", Element("Cloud", "Hybrid", 13))]

  /** The starting recipes combine as listed, in both orders. */
  lemma BaseCombinations(a: string, b: string)
    ensures {a, b} == {"Fire", "Water"} ==> FirstMatch(BaseRecipes, a, b) == Some(Element("Steam", "Hybrid", 15))
    ensures {a, b} == {"Earth", "Water"} ==> FirstMatch(BaseRecipes, a, b) == Some(Element("Mud", "Hybrid", 12))
    ensures {a, b} == {"Fire", "Earth"} ==> FirstMatch(BaseRecipes, a, b) == Some(Element("Lava", "Hybrid", 18))
    ensures {a, b} == {"Air", "Water"} ==> FirstMatch(BaseRecipes, a, b) == Some(Element("Cloud", "Hybrid", 13))
    ensures a == b ==> FirstMatch(BaseRecipes, a, b) == None
  {
    FirstMatchIsFirst(BaseRecipes, a, b);
  }

  class AlchemySystem {
    var elementDatabase: map<string, Element>
    var recipeDatabase: seq<Recipe>

    /** A new subsystem holds no elements and no recipes. */
    constructor()
      ensures elementDatabase == map[] && recipeDatabase == []
    {
      elementDatabase := map[];
      recipeDatabase := [];
    }

    /** Initialize: the base elements, then the base recipes. */
    method Initialize()
      modifies this
      ensures forall e :: e in BaseElements ==> e.name in elementDatabase && elementDatabase[e.name] == e
      ensures forall k :: k in elementDatabase <==> k in old(elementDatabase) || k in {"Fire", "Water", "Earth", "Air"}
      ensures recipeDatabase == old(recipeDatabase) + BaseRecipes
    {
      InitializeElements();
      InitializeRecipes();
    }

    /** InitializeElements: files each base element under its name, replacing what was there. */
    method InitializeElements()
      modifies this
      ensures elementDatabase == old(elementDatabase)[
        "Fire" := BaseElements[0]][
        "Water" := BaseElements[1]][
        "Earth" := BaseElements[2]][
        "Air" := BaseElements[3]]
      ensures recipeDatabase == old(recipeDatabase)
    {
      elementDatabase := elementDatabase["Fire" := Element("Fire", "Fire", 10)];
      elementDatabase := elementDatabase["Water" := Element("Water", "Water", 10)];
      elementDatabase := elementDatabase["Earth" := Element("Earth", "Earth", 10)];
      elementDatabase := elementDatabase["Air" := Element("Air", "Air", 10)];
    }

    /** InitializeRecipes: appends the base recipes in order. */
    method InitializeRecipes()
      modifies this
      ensures recipeDatabase == old(recipeDatabase) + BaseRecipes
      ensures elementDatabase == old(elementDatabase)
    {
      recipeDatabase := recipeDatabase + [Recipe("Fire", "Water", Element("Steam", "Hybrid", 15))];
      recipeDatabase := recipeDatabase + [Recipe("Earth", "Water", Element("Mud", "Hybrid", 12))];
      recipeDatabase := recipeDatabase + [Recipe("Fire", "Earth", Element("Lava", "Hybrid", 18))];
      recipeDatabase := recipeDatabase + [Recipe("Air", "Water", Element("Cloud", "Hybrid", 13))];
    }

    /**
     * CombineElements: the result of the first recipe accepting the pair in
     * either order; the caller's element is returned untouched otherwise.
     */
    method CombineElements(a: string, b: string, outResult: Element) returns (ok: bool, result: Element)
      ensures ok <==> exists i :: 0 <= i < |recipeDatabase| && Accepts(recipeDatabase[i], a, b)
      ensures ok ==> Some(result) == FirstMatch(recipeDatabase, a, b)
      ensures !ok ==> result == outResult
    {
      FirstMatchIsFirst(recipeDatabase, a, b);
      var i := 0;
      while i < |recipeDatabase|
        invariant 0 <= i <= |recipeDatabase|
        invariant FirstMatch(recipeDatabase[i..], a, b) == FirstMatch(recipeDatabase, a, b)
        decreases |recipeDatabase| - i
      {
        var r := recipeDatabase[i];
        if (r.element1 == a && r.element2 == b) || (r.element1 == b && r.element2 == a) {
          return true, r.result;
        }
        assert recipeDatabase[i..][1..] == recipeDatabase[i + 1..];
        i := i + 1;
      }
      return false, outResult;
    }

    /** GetAllElements: every filed element once, in no particular order. */
    method GetAllElements() returns (elements: seq<Element>)
      ensures |elements| == |elementDatabase.Keys|
      ensures forall e :: e in elements <==> exists k :: k in elementDatabase && elementDatabase[k] == e
    {
      elements := [];
      var todo := elementDatabase.Keys;
      while todo != {}
        invariant todo <= elementDatabase.Keys
        invariant |elements| + |todo| == |elementDatabase.Keys|
        invariant forall e :: e in elements <==> exists k :: k in elementDatabase && k !in todo && elementDatabase[k] == e
        decreases todo
      {
        var k :| k in todo;
        elements := elements + [elementDatabase[k]];
        todo := todo - {k};
      }
    }

    /** GetAllRecipes: the recipe list in insertion order. */
    function GetAllRecipes(): (recipes: seq<Recipe>)
      reads this
      ensures recipes == recipeDatabase
    {
      recipeDatabase
    }
  }
}
