/** The list updates behind the two toggle handlers: the bar (a list of
    ingredient strings, matched by exact string) and the favorites (a list of
    whole drink records, matched by idDrink). */
module Toggles {
  import opened Js
  import opened Recipes

  // ---------------------------------------------------------------------
  // Bar

  /** `i => i !== ingredient` */
  function Differs(ingredient: string): string -> bool {
    i => i != ingredient
  }

  /** The new myBar of toggleBarIngredient. */
  function ToggledBar(myBar: seq<string>, ingredient: string): seq<string> {
    if ingredient in myBar then Filter(myBar, Differs(ingredient)) else myBar + [ingredient]
  }

  /** Toggling flips the exact string's membership. When it was present,
      every copy goes and every other entry stays, with its multiplicity and
      in its order; when it was absent, it is appended at the end. */
  lemma ToggledBarSpec(myBar: seq<string>, ingredient: string)
    ensures ingredient in ToggledBar(myBar, ingredient) <==> ingredient !in myBar
    ensures ingredient in myBar ==>
              IsSubsequence(ToggledBar(myBar, ingredient), myBar) &&
              forall y :: y != ingredient ==>
                multiset(ToggledBar(myBar, ingredient))[y] == multiset(myBar)[y]
    ensures ingredient !in myBar ==> ToggledBar(myBar, ingredient) == myBar + [ingredient]
  {
    if ingredient in myBar {
      FilterIsSubsequence(myBar, Differs(ingredient));
      forall y | y != ingredient
        ensures multiset(ToggledBar(myBar, ingredient))[y] == multiset(myBar)[y]
      {
        FilterCount(myBar, Differs(ingredient), y);
      }
    }
  }

  /** Toggling the same string twice restores whether it is on the bar, and
      restores the whole bar when the string was not on it. */
  lemma ToggledBarTwice(myBar: seq<string>, ingredient: string)
    ensures ingredient in ToggledBar(ToggledBar(myBar, ingredient), ingredient) <==> ingredient in myBar
    ensures ingredient !in myBar ==> ToggledBar(ToggledBar(myBar, ingredient), ingredient) == myBar
  {
    ToggledBarSpec(myBar, ingredient);
    ToggledBarSpec(ToggledBar(myBar, ingredient), ingredient);
    if ingredient !in myBar {
      FilterAppend(myBar, [ingredient], Differs(ingredient));
      FilterKeepsAll(myBar, Differs(ingredient));
    }
  }

  /** The match is by exact string: toggling "gin" next to "Gin" adds a
      second entry instead of removing the first, although the can-make check
      treats the two as one ingredient. */
  lemma ToggledBarIsCaseSensitive()
    ensures ToggledBar(["Gin"], "gin") == ["Gin", "gin"]
    ensures Stocked("Gin", ["gin"])
  {
    assert ToLower("Gin") == ToLower("gin") by {
      assert ToLower("Gin")[0] == 'g';
      assert ToLower("Gin") == ['g', 'i', 'n'];
    }
  }

  /** Every bar entry is trimmed and non-empty. */
  predicate BarClean(myBar: seq<string>) {
    forall b :: b in myBar ==> b != "" && Trim(b) == b
  }

  /** A clean bar stays clean when an existing entry is toggled (the remove
      button) or a trimmed non-empty text is toggled (the Enter handler). */
  lemma ToggledBarKeepsClean(myBar: seq<string>, ingredient: string)
    requires BarClean(myBar)
    requires ingredient in myBar || (ingredient != "" && Trim(ingredient) == ingredient)
    ensures BarClean(ToggledBar(myBar, ingredient))
  {
  }

  /** No string is on the bar twice. */
  predicate NoDuplicates(myBar: seq<string>) {
    forall i, j :: 0 <= i < j < |myBar| ==> myBar[i] != myBar[j]
  }

  lemma {:induction false} FilterKeepsNoDuplicates(myBar: seq<string>, p: string -> bool)
    requires NoDuplicates(myBar)
    ensures NoDuplicates(Filter(myBar, p))
  {
    if myBar != [] {
      var rest := myBar[1..];
      FilterKeepsNoDuplicates(rest, p);
      var r := Filter(myBar, p);
      if p(myBar[0]) {
        forall j | 1 <= j < |r|
          ensures r[0] != r[j]
        {
          assert r[j] in Filter(rest, p);
          var m :| 0 <= m < |rest| && rest[m] == r[j];
          assert myBar[m + 1] == r[j];
        }
      }
    }
  }

  /** The toggle never puts a second copy of a string on the bar: it only
      appends strings that are absent. */
  lemma ToggledBarKeepsDistinct(myBar: seq<string>, ingredient: string)
    requires NoDuplicates(myBar)
    ensures NoDuplicates(ToggledBar(myBar, ingredient))
  {
    if ingredient in myBar {
      FilterKeepsNoDuplicates(myBar, Differs(ingredient));
    } else {
      var r := myBar + [ingredient];
      forall i | 0 <= i < |myBar|
        ensures r[i] != ingredient
      {
        assert myBar[i] in myBar;
      }
    }
  }

  // ---------------------------------------------------------------------
  // Favorites

  /** `fav => fav.idDrink !== id` */
  function OtherId(id: string): Cocktail -> bool {
    (fav: Cocktail) => fav.idDrink != id
  }

  /** `favorites.some(fav => fav.idDrink === id)` */
  predicate HasId(favorites: seq<Cocktail>, id: string) {
    exists f :: f in favorites && f.idDrink == id
  }

  /** The new favorites of toggleFavorite. */
  function ToggledFavorites(favorites: seq<Cocktail>, cocktail: Cocktail): seq<Cocktail> {
    if HasId(favorites, cocktail.idDrink) then Filter(favorites, OtherId(cocktail.idDrink))
    else favorites + [cocktail]
  }

  /** No two favorites share an idDrink. */
  predicate UniqueIds(favorites: seq<Cocktail>) {
    forall i, j :: 0 <= i < j < |favorites| ==> favorites[i].idDrink != favorites[j].idDrink
  }

  /** Toggling flips whether the drink's id is among the favorites, and the
      favorites with any other id are the same records in the same order. */
  lemma ToggledFavoritesSpec(favorites: seq<Cocktail>, cocktail: Cocktail)
    ensures HasId(ToggledFavorites(favorites, cocktail), cocktail.idDrink) <==> !HasId(favorites, cocktail.idDrink)
    ensures Filter(ToggledFavorites(favorites, cocktail), OtherId(cocktail.idDrink)) ==
              Filter(favorites, OtherId(cocktail.idDrink))
    ensures !HasId(favorites, cocktail.idDrink) ==> ToggledFavorites(favorites, cocktail) == favorites + [cocktail]
  {
    var id := cocktail.idDrink;
    var p := OtherId(id);
    if HasId(favorites, id) {
      FilterKeepsAll(Filter(favorites, p), p);
    } else {
      FilterAppend(favorites, [cocktail], p);
      assert Filter([cocktail], p) == [];
    }
  }

  lemma {:induction false} FilterKeepsUniqueIds(favorites: seq<Cocktail>, p: Cocktail -> bool)
    requires UniqueIds(favorites)
    ensures UniqueIds(Filter(favorites, p))
  {
    if favorites != [] {
      var rest := favorites[1..];
      FilterKeepsUniqueIds(rest, p);
      var r := Filter(favorites, p);
      if p(favorites[0]) {
        forall j | 1 <= j < |r|
          ensures r[0].idDrink != r[j].idDrink
        {
          assert r[j] in Filter(rest, p);
          var m :| 0 <= m < |rest| && rest[m] == r[j];
          assert favorites[m + 1] == r[j];
        }
      }
    }
  }

  /** Toggling keeps ids unique. */
  lemma ToggledFavoritesKeepUnique(favorites: seq<Cocktail>, cocktail: Cocktail)
    requires UniqueIds(favorites)
    ensures UniqueIds(ToggledFavorites(favorites, cocktail))
  {
    if HasId(favorites, cocktail.idDrink) {
      FilterKeepsUniqueIds(favorites, OtherId(cocktail.idDrink));
    } else {
      var r := favorites + [cocktail];
      forall i | 0 <= i < |favorites|
        ensures r[i].idDrink != cocktail.idDrink
      {
        assert favorites[i] in favorites;
      }
    }
  }

  /** Toggling the same drink twice restores whether its id is a favorite,
      and restores the whole list when it was not a favorite. */
  lemma ToggledFavoritesTwice(favorites: seq<Cocktail>, cocktail: Cocktail)
    ensures HasId(ToggledFavorites(ToggledFavorites(favorites, cocktail), cocktail), cocktail.idDrink) <==>
              HasId(favorites, cocktail.idDrink)
    ensures !HasId(favorites, cocktail.idDrink) ==>
              ToggledFavorites(ToggledFavorites(favorites, cocktail), cocktail) == favorites
  {
    ToggledFavoritesSpec(favorites, cocktail);
    ToggledFavoritesSpec(ToggledFavorites(favorites, cocktail), cocktail);
    if !HasId(favorites, cocktail.idDrink) {
      var p := OtherId(cocktail.idDrink);
      FilterAppend(favorites, [cocktail], p);
      forall k | 0 <= k < |favorites|
        ensures p(favorites[k])
      {
        assert favorites[k] in favorites;
      }
      FilterKeepsAll(favorites, p);
    }
  }
}
