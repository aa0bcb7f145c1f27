/** The ingredient filter and tag concatenation of functions/src/utils.ts. */
module Utils {
  import opened Wrappers
  import opened Seqs
  import opened Strings
  import opened Recipes

  /** The fixed, ordered list of staple ingredients. */
  const COMMON_INGREDIENTS: seq<string> := [
    "garlic", "ginger", "salt", "salt and pepper", "pepper", "oil", "scallions", "onion",
    "cumin", "chilli powder", "chilli", "paprika", "cayenne", "water", "bell pepper"]

  /** `patterns.some((p) => text.includes(p))`. */
  function AnyIncluded(text: string, patterns: seq<string>): (r: bool)
    ensures r <==> exists k :: 0 <= k < |patterns| && Includes(text, patterns[k])
  {
    if patterns == [] then false
    else
      assert forall k :: 1 <= k < |patterns| ==> patterns[k] == patterns[1..][k - 1];
      Includes(text, patterns[0]) || AnyIncluded(text, patterns[1..])
  }

  /** An ingredient is common when, lower-cased, it contains some entry of the list. */
  function IsCommonIngredient(ingredient: string): (r: bool)
    ensures r <==> exists k :: 0 <= k < |COMMON_INGREDIENTS| && Includes(ToLower(ingredient), COMMON_INGREDIENTS[k])
  {
    AnyIncluded(ToLower(ingredient), COMMON_INGREDIENTS)
  }

  /** A named ingredient that merely contains a list entry is common. */
  lemma YellowBellPepperIsCommon()
    ensures IsCommonIngredient("Yellow Bell Pepper")
  {
    var lower := ToLower("Yellow Bell Pepper");
    assert lower == "yellow bell pepper";
    assert OccursAt(lower, COMMON_INGREDIENTS[14], 7);
  }

  /** `proportions.map((prop) => prop.ingredient)`. */
  function IngredientNames(ps: seq<Proportion>): (names: seq<string>)
    ensures |names| == |ps|
    ensures forall i :: 0 <= i < |ps| ==> names[i] == ps[i].ingredient
  {
    seq(|ps|, i requires 0 <= i < |ps| => ps[i].ingredient)
  }

  /**
   * The ingredient names of a recipe that pass `isCommonIngredient`; no proportions give none.
   * The names kept are the common ones, although the doc comment of the source speaks of the
   * "uncommon" ones.
   */
  function ProportionsToIngredientList(proportions: Option<seq<Proportion>>): (r: seq<string>)
    ensures proportions.None? ==> r == []
    ensures proportions.Some? ==> |r| <= |proportions.value|
    ensures forall i :: 0 <= i < |r| ==> IsCommonIngredient(r[i])
    ensures proportions.Some? ==>
      forall j :: 0 <= j < |proportions.value| && IsCommonIngredient(proportions.value[j].ingredient) ==>
        proportions.value[j].ingredient in r
  {
    match proportions
    case None => []
    case Some(ps) => Filter(IsCommonIngredient, IngredientNames(ps))
  }

  /** The list keeps the order of the ingredient lines of the recipe. */
  lemma IngredientListIsSubsequence(ps: seq<Proportion>)
    ensures IsSubsequence(ProportionsToIngredientList(Some(ps)), IngredientNames(ps))
  {
    FilterIsSubsequence(IsCommonIngredient, IngredientNames(ps));
  }

  /** Each common name occurs as often as in the recipe (duplicates stay), every other name never. */
  lemma IngredientListCounts(ps: seq<Proportion>, name: string)
    ensures multiset(ProportionsToIngredientList(Some(ps)))[name] ==
      if IsCommonIngredient(name) then multiset(IngredientNames(ps))[name] else 0
  {
    FilterMultiset(IsCommonIngredient, IngredientNames(ps), name);
  }

  /** An entry of the list, as a name on its own, is common. */
  lemma GarlicIsCommon()
    ensures IsCommonIngredient("garlic")
  {
    assert OccursAt(ToLower("garlic"), COMMON_INGREDIENTS[0], 0);
  }

  /** A distinctive ingredient, containing no entry of the list, is not common. */
  lemma TofuIsNotCommon()
    ensures !IsCommonIngredient("tofu")
  {
    var tofu := ToLower("tofu");
    assert tofu == "tofu";
    forall k | 0 <= k < |COMMON_INGREDIENTS|
      ensures !Includes(tofu, COMMON_INGREDIENTS[k])
    {
      if k == 2 {
        assert forall i :: OccursAt(tofu, "salt", i) ==> i == 0;
        assert tofu[0..4][0] == 't';
      } else if k == 5 {
        assert forall i :: OccursAt(tofu, "oil", i) ==> i == 0 || i == 1;
        assert tofu[0..3][0] == 't' && tofu[1..4][1] == 'f';
      } else {
        assert |COMMON_INGREDIENTS[k]| > |tofu|;
      }
    }
  }

  /** Of a common ingredient line followed by another one, only the first name is kept. */
  lemma KeepsFirstOfTwo(p: Proportion, q: Proportion)
    requires IsCommonIngredient(p.ingredient) && !IsCommonIngredient(q.ingredient)
    ensures ProportionsToIngredientList(Some([p, q])) == [p.ingredient]
  {
    var names := IngredientNames([p, q]);
    assert names == [p.ingredient, q.ingredient];
    assert Filter(IsCommonIngredient, names[1..]) == [] by {
      assert names[1..] == [q.ingredient] && names[1..][1..] == [];
    }
    assert Filter(IsCommonIngredient, names) == [p.ingredient] + Filter(IsCommonIngredient, names[1..]);
  }

  /** The filter keeps a staple and drops a distinctive ingredient. */
  lemma KeepsStapleDropsTofu()
    ensures ProportionsToIngredientList(Some([
      Proportion("garlic", "", "", "2", "cloves"), Proportion("tofu", "", "", "1", "block")])) == ["garlic"]
  {
    GarlicIsCommon();
    TofuIsNotCommon();
    KeepsFirstOfTwo(Proportion("garlic", "", "", "2", "cloves"), Proportion("tofu", "", "", "1", "block"));
  }

  /** `recipe?.tags || []`. */
  function TagsOf(r: Option<Recipe>): seq<string>
  {
    if r.Some? then r.value.tags else []
  }

  /** The tags of the recipes, recipe after recipe, in order. */
  function AllTags(rs: seq<Option<Recipe>>): seq<string>
    decreases |rs|
  {
    if rs == [] then [] else AllTags(rs[..|rs| - 1]) + TagsOf(rs[|rs| - 1])
  }

  /** The number of tags of all the recipes together. */
  function TagTotal(rs: seq<Option<Recipe>>): nat
    decreases |rs|
  {
    if rs == [] then 0 else |TagsOf(rs[0])| + TagTotal(rs[1..])
  }

  lemma {:induction false} AllTagsAppend(a: seq<Option<Recipe>>, b: seq<Option<Recipe>>)
    ensures AllTags(a + b) == AllTags(a) + AllTags(b)
    decreases |b|
  {
    if b == [] {
      assert a + b == a;
    } else {
      assert (a + b)[..|a + b| - 1] == a + b[..|b| - 1];
      AllTagsAppend(a, b[..|b| - 1]);
    }
  }

  /** The concatenation is as long as all tag lists together. */
  lemma {:induction false} AllTagsLength(rs: seq<Option<Recipe>>)
    ensures |AllTags(rs)| == TagTotal(rs)
    decreases |rs|
  {
    if rs != [] {
      AllTagsAppend([rs[0]], rs[1..]);
      assert [rs[0]] + rs[1..] == rs;
      assert AllTags([rs[0]]) == TagsOf(rs[0]);
      AllTagsLength(rs[1..]);
    }
  }

  /** A tag is in the concatenation exactly when some defined recipe carries it. */
  lemma {:induction false} AllTagsMember(rs: seq<Option<Recipe>>, tag: string)
    ensures tag in AllTags(rs) <==> exists i :: 0 <= i < |rs| && tag in TagsOf(rs[i])
    decreases |rs|
  {
    if rs != [] {
      var front := rs[..|rs| - 1];
      AllTagsMember(front, tag);
      assert forall i :: 0 <= i < |front| ==> front[i] == rs[i];
    }
  }

  /** `combineTags`: pushes the tags of each recipe onto a growing list. */
  method CombineTags(recipes: seq<Option<Recipe>>) returns (tags: seq<string>)
    ensures tags == AllTags(recipes)
  {
    tags := [];
    for i := 0 to |recipes|
      invariant tags == AllTags(recipes[..i])
    {
      assert recipes[..i + 1][..i] == recipes[..i];
      tags := tags + TagsOf(recipes[i]);
    }
    assert recipes[..|recipes|] == recipes;
  }
}
