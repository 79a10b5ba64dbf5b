/** The favorites list kept for the session: recipe names added by the
    "Add to Favorites" buttons, and the list of favorite recipes shown under
    the suggestions. */
module Favorites {
  import opened Seqs
  import opened Catalog

  predicate NoDuplicates(names: seq<string>) {
    forall i, j :: 0 <= i < j < |names| ==> names[i] != names[j]
  }

  /** The list after a click on "Add to Favorites" for `name`. */
  function AddName(names: seq<string>, name: string): seq<string> {
    if name in names then names else names + [name]
  }

  /** Adding keeps the list free of repeats, never loses or reorders an
      entry, grows it by at most one, and always leaves `name` in it. */
  lemma AddNameSpec(names: seq<string>, name: string)
    requires NoDuplicates(names)
    ensures NoDuplicates(AddName(names, name))
    ensures name in AddName(names, name)
    ensures names <= AddName(names, name)
    ensures |AddName(names, name)| <= |names| + 1
  {
  }

  /** A second click with the same name changes nothing. */
  lemma AddNameIdempotent(names: seq<string>, name: string)
    ensures AddName(AddName(names, name), name) == AddName(names, name)
  {
  }

  function HasFavoriteName(names: seq<string>): Recipe -> bool {
    (row: Recipe) => row.name in names
  }

  /** `df[df["recipe"].isin(favorites)]`: the table's rows whose name is a
      favorite, in table order rather than the order they were added. */
  function FavoriteRecords(catalog: seq<Recipe>, names: seq<string>): (r: seq<Recipe>)
    ensures IsSubseq(r, catalog)
    ensures forall x :: multiset(r)[x] == if x.name in names then multiset(catalog)[x] else 0
  {
    FilterSpec(catalog, HasFavoriteName(names));
    Filter(catalog, HasFavoriteName(names))
  }

  function RecipeName(row: Recipe): string {
    row.name
  }

  /** When recipe names are unique in the table, every favorite that names
      a recipe of the table is listed exactly once. */
  lemma FavoritesListedOnce(catalog: seq<Recipe>, names: seq<string>)
    requires KeysDistinct(catalog, RecipeName)
    ensures KeysDistinct(FavoriteRecords(catalog, names), RecipeName)
    ensures forall i :: 0 <= i < |catalog| && catalog[i].name in names ==>
      exists j :: 0 <= j < |FavoriteRecords(catalog, names)| && FavoriteRecords(catalog, names)[j].name == catalog[i].name
  {
    var r := FavoriteRecords(catalog, names);
    SubseqKeysDistinct(r, catalog, RecipeName);
    forall i | 0 <= i < |catalog| && catalog[i].name in names
      ensures exists j :: 0 <= j < |r| && r[j].name == catalog[i].name
    {
      assert catalog[i] in multiset(catalog);
      assert catalog[i] in multiset(r);
      var j :| 0 <= j < |r| && r[j] == catalog[i];
    }
  }

  /** The session's favorites: `st.session_state.favorites`. */
  class FavoriteList {
    var names: seq<string>

    ghost predicate Valid()
      reads this
    {
      NoDuplicates(names)
    }

    /** The list starts empty for a new session. */
    constructor ()
      ensures Valid() && names == []
    {
      names := [];
    }

    /** The button handler: appends `name` unless it is already a favorite;
        `added` tells whether the confirmation message is shown. */
    method Add(name: string) returns (added: bool)
      requires Valid()
      modifies this
      ensures Valid()
      ensures added <==> name !in old(names)
      ensures names == AddName(old(names), name)
    {
      added := name !in names;
      if added {
        names := names + [name];
      }
    }

    /** The favorites section: the table's rows for the current favorites. */
    function Listing(catalog: seq<Recipe>): (r: seq<Recipe>)
      reads this
      ensures IsSubseq(r, catalog)
      ensures forall x :: x in r <==> x in catalog && x.name in names
      ensures r == FavoriteRecords(catalog, names)
    {
      var r := FavoriteRecords(catalog, names);
      assert forall x :: x in r <==> x in multiset(r);
      r
    }
  }

  /** Clicking "Add to Favorites" twice for one recipe lists it once. */
  method AddTwiceListedOnce(catalog: seq<Recipe>, i: nat) returns (listed: seq<Recipe>)
    requires KeysDistinct(catalog, RecipeName)
    requires i < |catalog|
    ensures |listed| == 1 && listed[0] == catalog[i]
  {
    var favorites := new FavoriteList();
    var first := favorites.Add(catalog[i].name);
    var second := favorites.Add(catalog[i].name);
    assert !second;
    assert favorites.names == [catalog[i].name];
    listed := favorites.Listing(catalog);
    forall j | 0 <= j < |catalog| && j != i ensures !HasFavoriteName(favorites.names)(catalog[j]) {
      assert RecipeName(catalog[j]) != RecipeName(catalog[i]);
    }
    FilterSingle(catalog, HasFavoriteName(favorites.names), i);
  }
}
