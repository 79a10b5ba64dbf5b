# Smart Recipe Generator — a verified model of its query logic

The application is a single-page recipe browser. It builds a table of
recipes from a fixed list of cuisines, each with its own recipes. It offers a
cuisine drop-down, a recipe-name search box and an ingredient box. The
ingredient box ranks recipes by TF-IDF cosine similarity. When nothing
matches, a fallback search runs over the ingredient strings. Users can also
keep a list of favorite recipes for the session.

This project models that logic in Dafny and proves what each step
guarantees:

- `catalog.dfy` (module `Catalog`): the recipe records and the two loops
  that build the table. `GenerateRecipes` is `generate_recipes`.
  `BuildCatalog` is the `all_data.extend` loop. Both are methods with loop
  invariants. `GenerateRecipes` is proved against the specification
  function `CuisineRecords` and a per-field description of every record.
  `BuildCatalog` is proved against the specification function `CatalogOf`.
- `query.dfy` (module `Query`): the cuisine options, the cuisine filter with
  the `"All"` sentinel, the ingredient ranking (top 10), the
  case-insensitive name filter and the fallback search (first 5). `Search`
  composes these steps in the source's order. Lemmas then state what the
  composed pipeline guarantees.
- `ranking.dfy` (module `Ranking`): sorting by a score in descending order,
  then keeping the top ten.
- `favorites.dfy` (module `Favorites`): the session's favorites. It is a
  class whose `seq<string>` field is appended in place after a membership
  check. It also holds the favorites display, which lists the table's rows
  for the favorite names in table order.
- `text.dfy`, `ordering.dfy`, `seqs.dfy` (modules `Text`, `Ordering`,
  `Seqs`): the Python and pandas primitives the logic uses. These are
  `str.strip()`, ASCII lower-casing, substring search, `", ".join`,
  `split(",")[0]`, Python string ordering with `sorted(set)`, boolean-mask
  filtering, `head(k)`, and the subsequence relation ("kept the table's
  order").

Inputs that the model takes as parameters:
- The TF-IDF similarity is a parameter `sim: (string, string) -> int`. Its
  arguments are the user's ingredient text and a row's ingredient string.
- The random difficulty and rating of each recipe are parameters. They
  arrive as one `Draw` per recipe, with the rating in tenths (35..50).

## Model

| member | source | states |
|---|---|---|
| `Catalog.GenerateRecipes` | main.py:33-45 | one record per recipe definition, in input order; each record has the given cuisine, the definition's name, instructions and image, its ingredients joined with `", "`, and that recipe's draws |
| `Catalog.BuildCatalog` | main.py:80-82 | the table is the concatenation, in dictionary order, of every cuisine's generated records |
| `Catalog.CatalogLength` | main.py:80-82 | the table has exactly one row per recipe definition across all cuisines |
| `Catalog.CatalogAt` | main.py:80-82 | recipe `j` of cuisine `i` is the row at position (number of recipes of the earlier cuisines) + `j`, built from that definition with that cuisine |
| `Ordering.SortedDistinct` | main.py:99 | `sorted(unique(xs))` is strictly ascending and holds exactly the values of `xs` |
| `Ordering.LessTransitive` | main.py:99 | Python's string `<` is transitive |
| `Ordering.LessTotal` | main.py:99 | any two different strings are ordered one way or the other by Python's string `<` |
| `Query.CuisineOptions` | main.py:99 | the options are `"All"` followed by every cuisine of the table exactly once, in ascending order; with no cuisine named `"All"` there are no repeats |
| `Query.FilterByCuisine` | main.py:104 | with `"All"` the whole table; otherwise exactly the rows whose cuisine equals the selection, each row as often as in the table, in table order |
| `Query.Ranked` | main.py:107-114 | blank ingredient text passes the rows through unchanged; otherwise `min(10, n)` rows drawn from the filtered rows, in non-increasing similarity, and no dropped row is more similar than a kept one |
| `Ranking.SortByScore` | main.py:112 | the sort result is a permutation of its input, in non-increasing score order |
| `Ranking.RankTopSpec` | main.py:112 | `sort_values(descending).head(10)` keeps `min(10, n)` rows, uses no row more often than it occurs, is in non-increasing score order, and scores every dropped row at most as high as every kept row |
| `Query.FilterByName` | main.py:116-117 | a blank search passes the rows through; otherwise exactly the rows whose name contains the search text ignoring case, in their order; no row is added |
| `Query.FallbackKey` | main.py:121 | with non-empty ingredient text, the key is the unstripped text before its first comma (all of it when it has none); otherwise the key is the name search text |
| `Query.Fallback` | main.py:122 | at most 5 rows of the whole table, in table order, all with the key in their ingredient string ignoring case; they are the first `min(5, m)` of the table's `m` matching rows, counted with repeats |
| `Query.SearchFromCatalog` | main.py:104-122 | every suggestion is a row of the table |
| `Query.SearchSize` | main.py:107-122 | with ingredient text there are at most 10 suggestions; when the fallback runs there are at most 5 |
| `Query.SearchKeepsCuisine` | main.py:104-119 | unless the fallback runs, every suggestion has the selected cuisine |
| `Query.SearchKeepsName` | main.py:116-119 | unless the fallback runs, a non-blank name search leaves only rows whose name contains it, ignoring case |
| `Query.SearchInTableOrder` | main.py:104-122 | without ingredient text the suggestions are a subsequence of the table, fallback or not |
| `Query.SearchRankOrder` | main.py:107-119 | with ingredient text, unless the fallback runs, the suggestions are in non-increasing similarity order |
| `Query.SearchPassThrough` | main.py:104-119 | with neither ingredient text nor name search, the suggestions are exactly the cuisine filter's rows when there are any |
| `Query.FallbackEmptyKey` | main.py:121-122 | an empty fallback key matches every row, so the fallback shows the first five rows of the table |
| `Query.FallbackFindsIngredient` | main.py:122 | searching the fallback for any one ingredient of a recipe in the table finds that recipe, unless five rows fill the fallback first |
| `Query.PastedIngredientsKey` | main.py:121-122 | when a recipe's joined ingredient string is typed as the ingredient text, the fallback key is that recipe's first ingredient, and the fallback on it finds the recipe unless five rows fill it first |
| `Query.FallbackLeavesCuisine` | main.py:104-122 | with "Italian" selected, a name search that matches nothing and ingredient text "rice", the only suggestion is a Chinese recipe |
| `Text.Strip` | main.py:107 | the result of `strip()` is a contiguous slice of the input with only whitespace before and after it, and it begins and ends with a non-whitespace character whenever it is non-empty |
| `Text.BlankIffAllSpace` | main.py:107 | `text.strip()` is empty exactly when every character of `text` is Python whitespace |
| `Text.ContainsIffOccurs` | main.py:117 | the substring test holds exactly when the needle occurs at some position of the haystack |
| `Text.BeforeFirst` | main.py:121 | `s.split(",")[0]` is a prefix of `s` with no comma, followed in `s` by a comma or by the end of `s` |
| `Text.BeforeFirstOfJoin` | main.py:39 | splitting a `", "`-joined list at its first comma gives back the first part when that part has no comma |
| `Text.JoinContainsPart` | main.py:39 | every part of a joined string occurs in it |
| `Seqs.FilterSpec` | main.py:104 | a boolean-mask selection keeps table order and keeps exactly the rows that pass, each as often as it occurs |
| `Seqs.Take` | main.py:122 | `head(k)` is the first `min(k, n)` rows, in order |
| `Seqs.SubseqTransitive` | main.py:104-122 | selections chained one after another still keep the table's order |
| `Favorites.FavoriteList.constructor` | main.py:90-91 | a session starts with no favorites |
| `Favorites.FavoriteList.Add` | main.py:138-141 | the name is appended when absent and the list is unchanged when present; `added` tells which; the list never holds a name twice |
| `Favorites.AddNameSpec` | main.py:138-140 | adding keeps the list free of repeats, keeps every earlier entry in place, grows the list by at most one, and leaves the name in it |
| `Favorites.AddNameIdempotent` | main.py:138-140 | adding the same name twice leaves the list as adding it once |
| `Favorites.FavoriteRecords` | main.py:148 | the display is exactly the table's rows whose name is a favorite, in table order (not insertion order) |
| `Favorites.FavoriteList.Listing` | main.py:148 | a row is listed exactly when it is in the table and its name is a favorite, and the listing keeps table order; it is the favorites display `FavoriteRecords` of the current names |
| `Favorites.FavoritesListedOnce` | main.py:148 | when names are unique in the table, no name is listed twice and every favorite naming a table recipe is listed |
| `Favorites.AddTwiceListedOnce` | main.py:138-148 | adding a recipe to a fresh favorites list twice lists exactly that one recipe |

## Notable behaviour of the code

The model follows the code in each case below.

- The fallback searches the whole table, so a cuisine selection does not
  hold once the fallback runs. `Query.FallbackLeavesCuisine` shows a
  concrete case where the only suggestion has another cuisine.
  `Query.SearchKeepsCuisine` therefore holds only when the fallback does
  not run.
- When the fallback key is empty, the code matches every row. An example
  is ingredient text starting with a comma together with a name search
  that matches nothing. The fallback then shows the first five rows of the
  table (`Query.FallbackEmptyKey`), not an empty list.
- The code chooses the fallback key by testing whether the ingredient text
  is non-empty, without stripping it. Ingredient text of only spaces skips
  the ranking but still becomes the key.
- The ranking sort is not stable (pandas' default quicksort), so rows with
  equal similarity may appear in any order. The model sorts in its own
  fixed way and claims no tie order.

## Left out

- The Streamlit interface: page setup, CSS, widgets, images, warning and
  success messages, and the re-run of the script on every interaction.
  The success message is only reflected by `Add`'s `added` result.
- The TF-IDF vectorizer and cosine similarity (floating point inside
  scikit-learn). They are replaced by the abstract similarity parameter
  `sim`. That scores lie in [0, 1] and that an empty query scores 0 is
  therefore not modelled.
- The random draws of difficulty and rating. They are inputs, one `Draw`
  per recipe. The uniform distribution and rounding to one decimal are
  not modelled beyond the rating range 3.5–5.0 in tenths.
- The hard-coded recipe literal itself. The model is proved for any recipe
  data. Uniqueness of recipe names is therefore a hypothesis
  (`Favorites.FavoritesListedOnce`, `Favorites.AddTwiceListedOnce`), not a
  proved fact about the literal.
- pandas `str.contains` treats its pattern as a regular expression. The
  model matches it as a literal substring, so queries are assumed free of
  regular-expression metacharacters. Case-insensitivity is modelled as
  ASCII lower-casing, not Unicode case folding. `na=False` is not
  modelled, because no ingredient string is missing.
- The "similarity" column that the ranking adds to the rows, and the
  session-state persistence across re-runs (one `FavoriteList` object
  stands for the session).
- Ranking.RankTopSpec: does not state which of several equally similar rows
  are kept or in which order, because the source's sort is not stable.
- Query.Ranked: the same tie order is left unstated, for the same reason.
- Cuisines that are not in the table. The drop-down offers only "All" and
  the table's own cuisines. The model's `Search` still accepts any cuisine
  string, so it extends the pipeline to inputs the application never
  produces. For such a cuisine with non-blank ingredient text, the model
  ranks an empty list and falls back. The real similarity call would be
  given no candidate rows instead.
