/** The query pipeline that runs on every interaction: cuisine drop-down
    options, the cuisine filter, the ingredient ranking, the name search and
    the fallback search when nothing is left. */
module Query {
  import opened Text
  import opened Ordering
  import opened Seqs
  import opened Catalog
  import Ranking

  /** The drop-down entry that disables the cuisine filter. */
  const AllCuisines := "All"

  /** How many rows the fallback search shows. */
  const FallbackCount: nat := 5

  /** The TF-IDF cosine similarity between the user's ingredient text (first
      argument) and a row's ingredient string (second argument). */
  type Similarity = (string, string) -> int

  /** The "cuisine" column. */
  function CuisineColumn(catalog: seq<Recipe>): (r: seq<string>)
    ensures |r| == |catalog|
    ensures forall i :: 0 <= i < |catalog| ==> r[i] == catalog[i].cuisine
  {
    seq(|catalog|, i requires 0 <= i < |catalog| => catalog[i].cuisine)
  }

  /** `["All"] + sorted(df["cuisine"].unique())`: the sentinel, then every
      cuisine of the table once, in ascending order. */
  function CuisineOptions(catalog: seq<Recipe>): (r: seq<string>)
    ensures |r| >= 1 && r[0] == AllCuisines
    ensures StrictlySorted(r[1..])
    ensures forall c :: c in r[1..] <==> exists i :: 0 <= i < |catalog| && catalog[i].cuisine == c
    ensures AllCuisines !in r[1..] ==> forall i, j :: 0 <= i < j < |r| ==> r[i] != r[j]
  {
    var column := CuisineColumn(catalog);
    var cuisines := SortedDistinct(column);
    StrictlySortedDistinct(cuisines);
    var r := [AllCuisines] + cuisines;
    assert r[1..] == cuisines;
    assert forall c :: c in column <==> exists i :: 0 <= i < |catalog| && catalog[i].cuisine == c by {
      forall c | c in column ensures exists i :: 0 <= i < |catalog| && catalog[i].cuisine == c {
        var i :| 0 <= i < |column| && column[i] == c;
      }
    }
    r
  }

  function CuisineIs(cuisine: string): Recipe -> bool {
    (row: Recipe) => row.cuisine == cuisine
  }

  /** `df if cuisine == "All" else df[df["cuisine"] == cuisine]`: with the
      sentinel the whole table, otherwise exactly the rows of that cuisine
      (compared exactly), in table order. */
  function FilterByCuisine(catalog: seq<Recipe>, cuisine: string): (r: seq<Recipe>)
    ensures cuisine == AllCuisines ==> r == catalog
    ensures IsSubseq(r, catalog)
    ensures forall x ::
              multiset(r)[x] == if cuisine == AllCuisines || x.cuisine == cuisine then multiset(catalog)[x] else 0
  {
    if cuisine == AllCuisines then
      SubseqRefl(catalog);
      catalog
    else
      FilterSpec(catalog, CuisineIs(cuisine));
      Filter(catalog, CuisineIs(cuisine))
  }

  /** The similarity of each row to the user's ingredient text. */
  function ScoreBy(ingredients: string, sim: Similarity): Recipe -> int {
    (row: Recipe) => sim(ingredients, row.ingredients)
  }

  /** The ingredient step: with blank ingredient text the rows pass through;
      otherwise the ten most similar rows, most similar first. */
  function Ranked(filtered: seq<Recipe>, ingredients: string, sim: Similarity): (r: seq<Recipe>)
    ensures IsBlank(ingredients) ==> r == filtered
    ensures !IsBlank(ingredients) ==>
      && |r| == (if |filtered| < Ranking.TopCount then |filtered| else Ranking.TopCount)
      && multiset(r) <= multiset(filtered)
      && Ranking.NonIncreasing(r, ScoreBy(ingredients, sim))
      && forall x, y ::
           x in r && y in multiset(filtered) - multiset(r)
           ==> sim(ingredients, y.ingredients) <= sim(ingredients, x.ingredients)
  {
    if IsBlank(ingredients) then filtered
    else
      Ranking.RankTopSpec(filtered, ScoreBy(ingredients, sim));
      Ranking.RankTop(filtered, ScoreBy(ingredients, sim))
  }

  function NameContains(search: string): Recipe -> bool {
    (row: Recipe) => ContainsIgnoreCase(row.name, search)
  }

  /** `results[results["recipe"].str.contains(search, case=False)]`, applied
      only when the search text is not blank: keeps exactly the rows whose
      name contains the search text ignoring case, in their order. */
  function FilterByName(results: seq<Recipe>, search: string): (r: seq<Recipe>)
    ensures IsBlank(search) ==> r == results
    ensures IsSubseq(r, results)
    ensures forall x ::
              multiset(r)[x] == if IsBlank(search) || ContainsIgnoreCase(x.name, search) then multiset(results)[x] else 0
  {
    if IsBlank(search) then
      SubseqRefl(results);
      results
    else
      FilterSpec(results, NameContains(search));
      Filter(results, NameContains(search))
  }

  /** `ingredients.split(",")[0] if ingredients else search`: note the test
      is on the raw ingredient text, not on its stripped form. */
  function FallbackKey(ingredients: string, search: string): (key: string)
    ensures ingredients == "" ==> key == search
    ensures ingredients != "" ==>
      && |key| <= |ingredients| && key == ingredients[..|key|]
      && ',' !in key
      && (|key| < |ingredients| ==> ingredients[|key|] == ',')
  {
    if ingredients != "" then BeforeFirst(ingredients, ',') else search
  }

  function IngredientsContain(key: string): Recipe -> bool {
    (row: Recipe) => ContainsIgnoreCase(row.ingredients, key)
  }

  /** `df[df["ingredients"].str.contains(key, case=False)].head(5)`: at most
      five rows of the whole table whose ingredient string contains the key
      ignoring case: the first matches in table order, fewer than five only
      when no other row matches. */
  function Fallback(catalog: seq<Recipe>, key: string): (r: seq<Recipe>)
    ensures |r| <= FallbackCount
    ensures IsSubseq(r, catalog)
    ensures forall x :: x in r ==> ContainsIgnoreCase(x.ingredients, key)
    ensures |r| < FallbackCount ==>
      forall x :: x in catalog && ContainsIgnoreCase(x.ingredients, key) ==> x in r
    ensures |r| <= |Filter(catalog, IngredientsContain(key))| && r == Filter(catalog, IngredientsContain(key))[..|r|]
    ensures var n := |Filter(catalog, IngredientsContain(key))|; |r| == if n < FallbackCount then n else FallbackCount
  {
    var matching := Filter(catalog, IngredientsContain(key));
    FilterSpec(catalog, IngredientsContain(key));
    SubseqMembers(Take(matching, FallbackCount), matching);
    SubseqTransitive(Take(matching, FallbackCount), matching, catalog);
    Take(matching, FallbackCount)
  }

  /** The rows left after the cuisine filter, the ingredient ranking and the
      name search, before any fallback. */
  function Matches(catalog: seq<Recipe>, cuisine: string, search: string, ingredients: string, sim: Similarity): seq<Recipe> {
    FilterByName(Ranked(FilterByCuisine(catalog, cuisine), ingredients, sim), search)
  }

  /** The recipe suggestions shown for one set of inputs. */
  function Search(catalog: seq<Recipe>, cuisine: string, search: string, ingredients: string, sim: Similarity): seq<Recipe> {
    var results := Matches(catalog, cuisine, search, ingredients, sim);
    if |results| == 0 then Fallback(catalog, FallbackKey(ingredients, search)) else results
  }

  /** Every suggestion is a row of the table. */
  lemma SearchFromCatalog(catalog: seq<Recipe>, cuisine: string, search: string, ingredients: string, sim: Similarity)
    ensures forall x :: x in Search(catalog, cuisine, search, ingredients, sim) ==> x in catalog
  {
    var filtered := FilterByCuisine(catalog, cuisine);
    var ranked := Ranked(filtered, ingredients, sim);
    var results := FilterByName(ranked, search);
    SubseqMembers(filtered, catalog);
    SubseqMembers(results, ranked);
    forall x | x in ranked ensures x in filtered {
      assert x in multiset(ranked);
    }
    SubseqMembers(Fallback(catalog, FallbackKey(ingredients, search)), catalog);
  }

  /** With ingredient text there are never more than ten suggestions, and the
      fallback never shows more than five. */
  lemma SearchSize(catalog: seq<Recipe>, cuisine: string, search: string, ingredients: string, sim: Similarity)
    ensures !IsBlank(ingredients) ==> |Search(catalog, cuisine, search, ingredients, sim)| <= Ranking.TopCount
    ensures |Matches(catalog, cuisine, search, ingredients, sim)| == 0 ==>
      |Search(catalog, cuisine, search, ingredients, sim)| <= FallbackCount
  {
    var ranked := Ranked(FilterByCuisine(catalog, cuisine), ingredients, sim);
    SubseqLength(FilterByName(ranked, search), ranked);
  }

  /** Unless the fallback runs, every suggestion belongs to the selected
      cuisine. */
  lemma SearchKeepsCuisine(catalog: seq<Recipe>, cuisine: string, search: string, ingredients: string, sim: Similarity)
    requires cuisine != AllCuisines
    requires |Matches(catalog, cuisine, search, ingredients, sim)| > 0
    ensures forall x :: x in Search(catalog, cuisine, search, ingredients, sim) ==> x.cuisine == cuisine
  {
    var filtered := FilterByCuisine(catalog, cuisine);
    var ranked := Ranked(filtered, ingredients, sim);
    var results := FilterByName(ranked, search);
    SubseqMembers(results, ranked);
    forall x | x in results ensures x.cuisine == cuisine {
      assert x in multiset(ranked);
      assert x in multiset(filtered);
    }
  }

  /** Unless the fallback runs, a non-blank name search leaves only rows whose
      name contains it, ignoring case. */
  lemma SearchKeepsName(catalog: seq<Recipe>, cuisine: string, search: string, ingredients: string, sim: Similarity)
    requires !IsBlank(search)
    requires |Matches(catalog, cuisine, search, ingredients, sim)| > 0
    ensures forall x :: x in Search(catalog, cuisine, search, ingredients, sim) ==> ContainsIgnoreCase(x.name, search)
  {
    var results := Matches(catalog, cuisine, search, ingredients, sim);
    forall x | x in results ensures ContainsIgnoreCase(x.name, search) {
      assert x in multiset(results);
    }
  }

  /** Without ingredient text the suggestions keep the table's order, whether
      or not the fallback runs. */
  lemma SearchInTableOrder(catalog: seq<Recipe>, cuisine: string, search: string, ingredients: string, sim: Similarity)
    requires IsBlank(ingredients)
    ensures IsSubseq(Search(catalog, cuisine, search, ingredients, sim), catalog)
  {
    var filtered := FilterByCuisine(catalog, cuisine);
    SubseqTransitive(FilterByName(filtered, search), filtered, catalog);
  }

  /** With ingredient text, unless the fallback runs, the suggestions are
      ordered from most to least similar. */
  lemma SearchRankOrder(catalog: seq<Recipe>, cuisine: string, search: string, ingredients: string, sim: Similarity)
    requires !IsBlank(ingredients)
    requires |Matches(catalog, cuisine, search, ingredients, sim)| > 0
    ensures Ranking.NonIncreasing(Search(catalog, cuisine, search, ingredients, sim), ScoreBy(ingredients, sim))
  {
    var ranked := Ranked(FilterByCuisine(catalog, cuisine), ingredients, sim);
    Ranking.SubseqNonIncreasing(FilterByName(ranked, search), ranked, ScoreBy(ingredients, sim));
  }

  /** With neither ingredient text nor a name search, the suggestions are the
      cuisine filter's rows unchanged, unless it left none. */
  lemma SearchPassThrough(catalog: seq<Recipe>, cuisine: string, search: string, ingredients: string, sim: Similarity)
    requires IsBlank(ingredients) && IsBlank(search)
    requires |FilterByCuisine(catalog, cuisine)| > 0
    ensures Search(catalog, cuisine, search, ingredients, sim) == FilterByCuisine(catalog, cuisine)
  {
  }

  /** An empty fallback key matches every row, so the fallback shows the
      first five rows of the table. */
  lemma {:induction false} FallbackEmptyKey(catalog: seq<Recipe>)
    ensures Fallback(catalog, "") == Take(catalog, FallbackCount)
  {
    forall i | 0 <= i < |catalog| ensures IngredientsContain("")(catalog[i]) {
      EmptyKeyMatches(catalog[i].ingredients);
    }
    FilterKeepsAll(catalog, IngredientsContain(""));
  }

  /** Searching the fallback for any one ingredient of a recipe finds that
      recipe, unless five other rows fill the fallback first. */
  lemma FallbackFindsIngredient(catalog: seq<Recipe>, cuisine: string, def: RecipeDef, draw: Draw, k: nat)
    requires MakeRecipe(cuisine, def, draw) in catalog
    requires k < |def.ingredients|
    ensures |Fallback(catalog, def.ingredients[k])| == FallbackCount
         || MakeRecipe(cuisine, def, draw) in Fallback(catalog, def.ingredients[k])
  {
    JoinContainsPart(def.ingredients, IngredientSeparator, k);
    var i :| OccursAt(Join(def.ingredients, IngredientSeparator), def.ingredients[k], i);
    OccursIgnoreCase(Join(def.ingredients, IngredientSeparator), def.ingredients[k], i);
  }

  /** Pasting a recipe's ingredient string into the ingredient box makes its
      first ingredient the fallback key, and that fallback finds the recipe
      unless five rows fill it first. */
  lemma PastedIngredientsKey(catalog: seq<Recipe>, cuisine: string, def: RecipeDef, draw: Draw, search: string)
    requires MakeRecipe(cuisine, def, draw) in catalog
    requires |def.ingredients| > 0 && def.ingredients[0] != "" && ',' !in def.ingredients[0]
    ensures FallbackKey(MakeRecipe(cuisine, def, draw).ingredients, search) == def.ingredients[0]
    ensures |Fallback(catalog, def.ingredients[0])| == FallbackCount
         || MakeRecipe(cuisine, def, draw) in Fallback(catalog, def.ingredients[0])
  {
    BeforeFirstOfJoin(def.ingredients, IngredientSeparator);
    FallbackFindsIngredient(catalog, cuisine, def, draw, 0);
  }

  lemma NoQInPizza()
    ensures !ContainsIgnoreCase("Pizza", "q")
  {
    assert Lower("Pizza") == "pizza";
    assert Lower("q") == "q";
    assert "pizza"[1..] == "izza" && "izza"[1..] == "zza" && "zza"[1..] == "za" && "za"[1..] == "a" && "a"[1..] == "";
    assert "pizza"[..1][0] != "q"[0] && "izza"[..1][0] != "q"[0] && "zza"[..1][0] != "q"[0];
    assert "za"[..1][0] != "q"[0] && "a"[..1][0] != "q"[0];
  }

  lemma NoRiceInCheese()
    ensures !ContainsIgnoreCase("cheese", "rice")
  {
    assert Lower("cheese") == "cheese";
    assert Lower("rice") == "rice";
    assert "cheese"[1..] == "heese" && "heese"[1..] == "eese" && "eese"[1..] == "ese";
    assert "cheese"[..4][0] != "rice"[0] && "heese"[..4][0] != "rice"[0] && "eese"[..4][0] != "rice"[0];
  }

  // A two-row table for the example below.
  function Pizza(): Recipe { Recipe("Italian", "Pizza", "cheese", "", "", Easy, 40) }
  function FriedRice(): Recipe { Recipe("Chinese", "Rice", "rice", "", "", Easy, 40) }

  lemma ExampleCuisineStep()
    ensures FilterByCuisine([Pizza(), FriedRice()], "Italian") == [Pizza()]
  {
    assert "Chinese"[0] != "Italian"[0];
  }

  lemma ExampleRankStep(sim: Similarity)
    ensures Ranked([Pizza()], "rice", sim) == [Pizza()]
  {
    assert !IsBlank("rice");
  }

  lemma QIsNotBlank()
    ensures !IsBlank("q")
  {
    assert !IsSpace("q"[0]);
    assert TrimStart("q") == "q";
  }

  lemma ExampleNameStep()
    ensures FilterByName([Pizza()], "q") == []
  {
    QIsNotBlank();
    NoQInPizza();
    assert !NameContains("q")(Pizza());
    assert [Pizza()][1..] == [];
  }

  lemma ExampleFallbackStep()
    ensures Fallback([Pizza(), FriedRice()], FallbackKey("rice", "q")) == [FriedRice()]
  {
    NoRiceInCheese();
    OccursIgnoreCase("rice", "rice", 0);
    assert FallbackKey("rice", "q") == "rice";
  }

  /** The fallback searches the whole table, so a cuisine selection no
      longer holds once it runs: with "Italian" selected, a name search that
      matches nothing and the ingredient text "rice", the only suggestion is
      a Chinese recipe. */
  lemma FallbackLeavesCuisine(sim: Similarity)
    ensures Search([Pizza(), FriedRice()], "Italian", "q", "rice", sim) == [FriedRice()]
    ensures FriedRice().cuisine != "Italian"
  {
    ExampleCuisineStep();
    ExampleRankStep(sim);
    ExampleNameStep();
    ExampleFallbackStep();
  }
}
