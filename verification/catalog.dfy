/** The recipe table: the per-cuisine recipe definitions, the flat records
    built from them, and the two loops that build the table
    (`generate_recipes` and the `all_data.extend` loop). */
module Catalog {
  import opened Text

  datatype Difficulty = Easy | Medium | Hard

  /** A rating in tenths of a star: `round(random.uniform(3.5, 5.0), 1)`
      lies between 3.5 and 5.0. */
  type Rating = r: int | 35 <= r <= 50 witness 35

  /** The two random draws made for one recipe when its record is built. */
  datatype Draw = Draw(difficulty: Difficulty, rating: Rating)

  /** One entry of a cuisine's recipe list, as written in the data literal. */
  datatype RecipeDef = RecipeDef(name: string, ingredients: seq<string>, instructions: string, image: string)

  /** One cuisine and its recipe list (one item of the data dictionary). */
  datatype CuisineGroup = CuisineGroup(cuisine: string, recipes: seq<RecipeDef>)

  /** One row of the table. `name` is the "recipe" column and `ingredients`
      is the ingredient list joined into one display string. */
  datatype Recipe = Recipe(
    cuisine: string,
    name: string,
    ingredients: string,
    instructions: string,
    image: string,
    difficulty: Difficulty,
    rating: Rating)

  /** The separator that joins a recipe's ingredients. */
  const IngredientSeparator := ", "

  /** The record built for one recipe definition (the dictionary literal in
      the loop of `generate_recipes`). */
  function MakeRecipe(cuisine: string, def: RecipeDef, draw: Draw): Recipe {
    Recipe(cuisine, def.name, Join(def.ingredients, IngredientSeparator),
           def.instructions, def.image, draw.difficulty, draw.rating)
  }

  /** The records of one cuisine: one per definition, in order. */
  function CuisineRecords(cuisine: string, defs: seq<RecipeDef>, draws: seq<Draw>): (r: seq<Recipe>)
    requires |draws| == |defs|
  {
    seq(|defs|, i requires 0 <= i < |defs| => MakeRecipe(cuisine, defs[i], draws[i]))
  }

  /** `generate_recipes(cuisine, recipe_list)`: appends one record per
      definition. The random draws are supplied by the caller, one per
      definition. */
  method GenerateRecipes(cuisine: string, recipeList: seq<RecipeDef>, draws: seq<Draw>)
    returns (recipes: seq<Recipe>)
    requires |draws| == |recipeList|
    ensures |recipes| == |recipeList|
    ensures forall i :: 0 <= i < |recipeList| ==>
      && recipes[i].cuisine == cuisine
      && recipes[i].name == recipeList[i].name
      && recipes[i].ingredients == Join(recipeList[i].ingredients, IngredientSeparator)
      && recipes[i].instructions == recipeList[i].instructions
      && recipes[i].image == recipeList[i].image
      && recipes[i].difficulty == draws[i].difficulty
      && recipes[i].rating == draws[i].rating
    ensures recipes == CuisineRecords(cuisine, recipeList, draws)
  {
    recipes := [];
    for i := 0 to |recipeList|
      invariant |recipes| == i
      invariant forall k :: 0 <= k < i ==> recipes[k] == MakeRecipe(cuisine, recipeList[k], draws[k])
    {
      recipes := recipes + [MakeRecipe(cuisine, recipeList[i], draws[i])];
    }
  }

  /** One list of draws per cuisine, one draw per recipe. */
  predicate DrawsFit(data: seq<CuisineGroup>, draws: seq<seq<Draw>>) {
    |draws| == |data| && forall i :: 0 <= i < |data| ==> |draws[i]| == |data[i].recipes|
  }

  /** The table: the cuisines' records concatenated in dictionary order. */
  function CatalogOf(data: seq<CuisineGroup>, draws: seq<seq<Draw>>): seq<Recipe>
    requires DrawsFit(data, draws)
  {
    if |data| == 0 then []
    else
      var n := |data| - 1;
      CatalogOf(data[..n], draws[..n]) + CuisineRecords(data[n].cuisine, data[n].recipes, draws[n])
  }

  /** The loop that builds the table: `all_data.extend(generate_recipes(...))`
      once per cuisine. */
  method BuildCatalog(data: seq<CuisineGroup>, draws: seq<seq<Draw>>) returns (allData: seq<Recipe>)
    requires DrawsFit(data, draws)
    ensures allData == CatalogOf(data, draws)
  {
    allData := [];
    for i := 0 to |data|
      invariant allData == CatalogOf(data[..i], draws[..i])
    {
      var recs := GenerateRecipes(data[i].cuisine, data[i].recipes, draws[i]);
      assert data[..i + 1][..i] == data[..i] && draws[..i + 1][..i] == draws[..i];
      allData := allData + recs;
    }
    assert data[..|data|] == data && draws[..|draws|] == draws;
  }

  /** Where cuisine `i`'s records start in the table. */
  function Offset(data: seq<CuisineGroup>, i: nat): nat
    requires i <= |data|
  {
    if i == 0 then 0 else Offset(data, i - 1) + |data[i - 1].recipes|
  }

  lemma {:induction false} OffsetOfPrefix(data: seq<CuisineGroup>, n: nat, i: nat)
    requires i <= n <= |data|
    ensures Offset(data[..n], i) == Offset(data, i)
  {
    if i > 0 { OffsetOfPrefix(data, n, i - 1); }
  }

  lemma {:induction false} OffsetMonotone(data: seq<CuisineGroup>, i: nat, k: nat)
    requires i <= k <= |data|
    ensures Offset(data, i) <= Offset(data, k)
  {
    if i < k { OffsetMonotone(data, i, k - 1); }
  }

  /** The table holds exactly as many rows as there are recipe definitions. */
  lemma {:induction false} CatalogLength(data: seq<CuisineGroup>, draws: seq<seq<Draw>>)
    requires DrawsFit(data, draws)
    ensures |CatalogOf(data, draws)| == Offset(data, |data|)
  {
    if |data| > 0 {
      var n := |data| - 1;
      CatalogLength(data[..n], draws[..n]);
      OffsetOfPrefix(data, n, n);
    }
  }

  /** Recipe `j` of cuisine `i` sits at `Offset(data, i) + j` and is the
      record built from that definition and its draw. */
  lemma {:induction false} CatalogAt(data: seq<CuisineGroup>, draws: seq<seq<Draw>>, i: nat, j: nat)
    requires DrawsFit(data, draws)
    requires i < |data| && j < |data[i].recipes|
    ensures Offset(data, i) + j < |CatalogOf(data, draws)|
    ensures CatalogOf(data, draws)[Offset(data, i) + j] == MakeRecipe(data[i].cuisine, data[i].recipes[j], draws[i][j])
  {
    var n := |data| - 1;
    var front := CatalogOf(data[..n], draws[..n]);
    var last := CuisineRecords(data[n].cuisine, data[n].recipes, draws[n]);
    assert CatalogOf(data, draws) == front + last;
    CatalogLength(data[..n], draws[..n]);
    OffsetOfPrefix(data, n, i);
    if i < n {
      CatalogAt(data[..n], draws[..n], i, j);
      assert data[..n][i] == data[i] && draws[..n][i] == draws[i];
      OffsetOfPrefix(data, n, n);
      assert Offset(data, i) + j < Offset(data, i + 1) <= Offset(data, n) by {
        OffsetMonotone(data, i + 1, n);
      }
    }
  }
}
